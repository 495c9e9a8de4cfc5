/** Every run of the ledger: deposits credited, quarantined, released and reversed after a
    reorganisation, payouts locked and settled, fees swept
    (backend/src/ledger/posting-flows.ts, backend/src/chains/ingest/deposit-ingestor.ts,
    backend/src/services/ledger.service.ts). */
module LedgerRuns {
  import opened Wrappers
  import opened Ledger
  import opened Journal

  datatype Payout = Payout(tenant: string, merchant: string, chain: string, asset: string, amount: int)

  datatype Event =
    | CreditDeposit(ref: string, tenant: string, merchant: string, chain: string, asset: string, amount: int, bps: int)
    | QuarantineDeposit(ref: string, tenant: string, merchant: string, chain: string, asset: string, amount: int)
    | ReleaseDeposit(id: string, tenant: string, merchant: string, asset: string, amount: int, fee: int)
    | Lock(key: string, payout: Payout)
    | Settle(key: string, payout: Payout, networkFee: Option<NetworkFee>)
    | SweepFee(sweepKey: EntryKey, merchant: string, chain: string, asset: string, amount: int,
      networkFee: Option<NetworkFee>)
    | ReverseDeposit(ref: string)

  /** A network fee moves an asset out of the gas float into an expense. */
  predicate FeeLegTyped(fee: Option<NetworkFee>)
  {
    fee.Some? ==> AccountTypeOf(fee.value.expense) == Some(Expense) && AccountTypeOf(fee.value.gasFloat) == Some(Asset)
  }

  predicate Legal(e: Event)
  {
    match e
    case Settle(_, _, fee) => FeeLegTyped(fee)
    case SweepFee(key, _, _, _, _, fee) => FeeLegTyped(fee) && (key.FeeKey? || key.SweepKey?)
    case _ => true
  }

  /** The entry an event asks for; a reversal has none of its own. */
  function Build(e: Event): Result<Entry, LedgerError>
    requires !e.ReverseDeposit?
  {
    match e
    case CreditDeposit(ref, tenant, merchant, chain, asset, amount, bps) =>
      DepositFinalized(DepositRef(ref), asset, amount, bps, PoolAddr(chain, merchant),
                       MerchantAvailable(tenant, merchant), FeeRevenue(tenant))
    case QuarantineDeposit(ref, tenant, merchant, chain, asset, amount) =>
      DepositQuarantined(DepositRef(ref), asset, amount, PoolAddr(chain, merchant), ComplianceSuspense(tenant))
    case ReleaseDeposit(id, tenant, merchant, asset, amount, fee) =>
      DepositReleased(ReleaseKey(id), asset, amount, fee, ComplianceSuspense(tenant),
                      MerchantAvailable(tenant, merchant), FeeRevenue(tenant))
    case Lock(key, p) =>
      PayoutLocked(LockKey(key), p.asset, p.amount, MerchantAvailable(p.tenant, p.merchant),
                   MerchantPendingWithdrawal(p.tenant, p.merchant))
    case Settle(key, p, fee) =>
      OutOfPool(SettleKey(key), p.asset, p.amount, MerchantPendingWithdrawal(p.tenant, p.merchant),
                PoolAddr(p.chain, p.merchant), fee)
    case SweepFee(key, merchant, chain, asset, amount, fee) =>
      OutOfPool(key, asset, amount, Treasury(chain), PoolAddr(chain, merchant), fee)
  }

  /** The journal together with the event behind each entry. */
  datatype Book = Book(journal: seq<Entry>, events: seq<Event>)

  function Post(b: Book, e: Event, entry: Entry): Book
  {
    if entry.key in Keys(b.journal) then b else Book(b.journal + [entry], b.events + [e])
  }

  /** The position of a key in a journal, from the back. */
  function Find(j: seq<Entry>, key: EntryKey): (r: Option<nat>)
    ensures r.Some? ==> At(j, r.value, key)
    ensures r.None? ==> key !in Keys(j)
  {
    if j == [] then None
    else if j[|j| - 1].key == key then Some(|j| - 1)
    else
      KeysSnoc(j);
      Find(j[..|j| - 1], key)
  }

  lemma {:induction false} KeysSnoc(j: seq<Entry>)
    requires j != []
    ensures Keys(j) == Keys(j[..|j| - 1]) + {j[|j| - 1].key}
  {
    var p := j[..|j| - 1];
    assert j == p + [j[|p|]];
    forall k | k in Keys(p) ensures k in Keys(j) {
      var i :| 0 <= i < |p| && p[i].key == k;
      assert j[i].key == k;
    }
    forall k | k in Keys(j) ensures k in Keys(p) + {j[|p|].key} {
      var i :| 0 <= i < |j| && j[i].key == k;
      if i < |p| { assert p[i].key == k; }
    }
  }

  /** What one event does to the books; an event that is refused changes nothing. */
  function Apply(b: Book, e: Event): Book
  {
    match e
    case ReverseDeposit(ref) =>
      var original := Find(b.journal, DepositRef(ref));
      if original.None? then b
      else Post(b, e, Entry(ReverseRef(ref), Flip(b.journal[original.value].postings)))
    case Lock(key, p) =>
      if p.amount > Owed(b.journal, MerchantAvailable(p.tenant, p.merchant), p.asset) then b
      else PostBuilt(b, e)
    case _ => PostBuilt(b, e)
  }

  function PostBuilt(b: Book, e: Event): Book
    requires !e.ReverseDeposit?
  {
    var entry := Build(e);
    if entry.Failure? then b else Post(b, e, entry.value)
  }

  const EMPTY := Book([], [])

  function Run(events: seq<Event>): Book
  {
    if events == [] then EMPTY else Apply(Run(events[..|events| - 1]), events[|events| - 1])
  }

  ghost predicate AllLegal(events: seq<Event>)
  {
    forall i :: 0 <= i < |events| ==> Legal(events[i])
  }

  // --------------------------------------------------------------- invariant

  /** Entry i is what its event builds, or the flip of the deposit it reverses. */
  ghost predicate Explained(b: Book, i: int)
    requires |b.journal| == |b.events| && 0 <= i < |b.journal|
  {
    var entry, e := b.journal[i], b.events[i];
    && Legal(e)
    && if e.ReverseDeposit? then
         entry.key == ReverseRef(e.ref) && exists k :: Undoes(b.journal, i, k, e.ref)
       else Build(e) == Success(entry)
  }

  ghost predicate Undoes(j: seq<Entry>, i: int, k: int, ref: string)
  {
    0 <= k < i < |j| && j[k].key == DepositRef(ref) && j[i].postings == Flip(j[k].postings)
  }

  ghost predicate Inv(b: Book)
  {
    && |b.journal| == |b.events| && UniqueKeys(b.journal)
    && forall i :: 0 <= i < |b.journal| ==> Explained(b, i)
  }

  lemma {:induction false} PostKeepsInv(b: Book, e: Event, entry: Entry)
    requires Inv(b) && Legal(e) && entry.key !in Keys(b.journal)
    requires if e.ReverseDeposit? then
        && entry.key == ReverseRef(e.ref)
        && exists k :: At(b.journal, k, DepositRef(e.ref)) && entry.postings == Flip(b.journal[k].postings)
      else Build(e) == Success(entry)
    ensures Inv(Book(b.journal + [entry], b.events + [e]))
  {
    var c := Book(b.journal + [entry], b.events + [e]);
    RecordedKeys(b.journal, entry);
    forall i | 0 <= i < |c.journal| ensures Explained(c, i) {
      if i < |b.journal| {
        assert Explained(b, i);
        if b.events[i].ReverseDeposit? {
          var k :| Undoes(b.journal, i, k, b.events[i].ref);
          assert Undoes(c.journal, i, k, b.events[i].ref);
        }
      } else if e.ReverseDeposit? {
        var k :| At(b.journal, k, DepositRef(e.ref)) && entry.postings == Flip(b.journal[k].postings);
        assert Undoes(c.journal, i, k, e.ref);
      }
    }
  }

  lemma {:induction false} ApplyKeepsInv(b: Book, e: Event)
    requires Inv(b) && Legal(e)
    ensures Inv(Apply(b, e))
  {
    if e.ReverseDeposit? {
      var original := Find(b.journal, DepositRef(e.ref));
      if original.Some? {
        var entry := Entry(ReverseRef(e.ref), Flip(b.journal[original.value].postings));
        if entry.key !in Keys(b.journal) { PostKeepsInv(b, e, entry); }
      }
    } else {
      var entry := Build(e);
      if entry.Success? && entry.value.key !in Keys(b.journal) { PostKeepsInv(b, e, entry.value); }
    }
  }

  lemma {:induction false} RunKeepsInv(events: seq<Event>)
    requires AllLegal(events)
    ensures Inv(Run(events))
  {
    if events != [] {
      RunKeepsInv(events[..|events| - 1]);
      ApplyKeepsInv(Run(events[..|events| - 1]), events[|events| - 1]);
    }
  }

  // --------------------------------------------- reversed deposits cancel out

  /** Deposits that have been reversed. */
  function Dead(j: seq<Entry>): set<string>
  {
    set i | 0 <= i < |j| && j[i].key.ReverseRef? :: j[i].key.ref
  }

  /** Neither a reversal nor reversed. */
  predicate Live(key: EntryKey, dead: set<string>)
  {
    match key
    case ReverseRef(_) => false
    case DepositRef(ref) => ref !in dead
    case _ => true
  }

  function LiveTotal(m: Measure, j: seq<Entry>, dead: set<string>): int
  {
    if j == [] then 0
    else
      var e := j[|j| - 1];
      LiveTotal(m, j[..|j| - 1], dead) + if Live(e.key, dead) then Sum(m, e.postings) else 0
  }

  /** Declaring one more deposit dead takes out exactly its entry. */
  lemma {:induction false} LiveWithout(m: Measure, j: seq<Entry>, dead: set<string>, k: int)
    requires UniqueKeys(j) && 0 <= k < |j| && j[k].key.DepositRef? && j[k].key.ref !in dead
    ensures LiveTotal(m, j, dead + {j[k].key.ref}) == LiveTotal(m, j, dead) - Sum(m, j[k].postings)
  {
    var n := |j| - 1;
    if k < n {
      LiveWithout(m, j[..n], dead, k);
      assert j[n].key != j[k].key;
    } else {
      LiveUntouched(m, j[..n], dead, j[k].key.ref);
    }
  }

  lemma {:induction false} LiveUntouched(m: Measure, j: seq<Entry>, dead: set<string>, ref: string)
    requires forall i :: 0 <= i < |j| ==> j[i].key != DepositRef(ref)
    ensures LiveTotal(m, j, dead + {ref}) == LiveTotal(m, j, dead)
  {
    if j != [] { LiveUntouched(m, j[..|j| - 1], dead, ref); }
  }

  function Shorter(b: Book): Book
    requires b.journal != [] && b.events != []
  {
    Book(b.journal[..|b.journal| - 1], b.events[..|b.events| - 1])
  }

  lemma {:induction false} ShorterInv(b: Book)
    requires Inv(b) && b.journal != []
    ensures Inv(Shorter(b))
  {
    var c := Shorter(b);
    forall i | 0 <= i < |c.journal| ensures Explained(c, i) {
      assert Explained(b, i);
      if b.events[i].ReverseDeposit? {
        var k :| Undoes(b.journal, i, k, b.events[i].ref);
        assert Undoes(c.journal, i, k, b.events[i].ref);
      }
    }
  }

  lemma {:induction false} DeadSnoc(j: seq<Entry>)
    requires j != []
    ensures var e := j[|j| - 1];
      Dead(j) == Dead(j[..|j| - 1]) + if e.key.ReverseRef? then {e.key.ref} else {}
  {
    var p := j[..|j| - 1];
    assert forall i :: 0 <= i < |p| ==> p[i] == j[i];
    forall r | r in Dead(j) ensures r in Dead(p) + if j[|p|].key.ReverseRef? then {j[|p|].key.ref} else {} {
      var i :| 0 <= i < |j| && j[i].key == ReverseRef(r);
      if i < |p| { assert p[i].key == ReverseRef(r); }
    }
    if j[|p|].key.ReverseRef? { assert j[|p|].key.ref in Dead(j); }
  }

  /** A reversal in the journal follows the deposit it reverses. */
  lemma {:induction false} DeadWasDeposited(b: Book, ref: string)
    requires Inv(b) && ref in Dead(b.journal)
    ensures DepositRef(ref) in Keys(b.journal)
  {
    var i :| 0 <= i < |b.journal| && b.journal[i].key == ReverseRef(ref);
    assert Explained(b, i);
    KeyOfEvent(b, i);
    var k :| Undoes(b.journal, i, k, ref);
    assert b.journal[k].key in Keys(b.journal);
  }

  lemma {:induction false} KeyOfEvent(b: Book, i: int)
    requires Inv(b) && 0 <= i < |b.journal|
    ensures b.events[i].ReverseDeposit? <==> b.journal[i].key.ReverseRef?
  {
    assert Explained(b, i);
  }

  /** In every reachable book, any figure over the whole journal equals the figure over
      the entries that are neither reversals nor reversed: a reversal undoes its deposit
      on every account, and does so once. */
  lemma {:induction false} ReversalsCancel(b: Book, m: Measure)
    requires Inv(b)
    ensures Total(m, b.journal) == LiveTotal(m, b.journal, Dead(b.journal))
    decreases |b.journal|
  {
    if b.journal != [] {
      ShorterInv(b);
      ReversalsCancel(Shorter(b), m);
      if b.journal[|b.journal| - 1].key.ReverseRef? { ReversalStep(b, m); } else { PlainStep(b, m); }
    }
  }

  /** The last entry reverses an earlier one. */
  lemma {:induction false} ReversalStep(b: Book, m: Measure)
    requires Inv(b) && b.journal != [] && b.journal[|b.journal| - 1].key.ReverseRef?
    requires var j := Shorter(b).journal; Total(m, j) == LiveTotal(m, j, Dead(j))
    ensures Total(m, b.journal) == LiveTotal(m, b.journal, Dead(b.journal))
  {
    var n := |b.journal| - 1;
    var j, entry := b.journal[..n], b.journal[n];
    LastNotDead(b);
    DeadSnoc(b.journal);
    KeyOfEvent(b, n);
    assert Explained(b, n);
    var k :| Undoes(b.journal, n, k, entry.key.ref);
    assert j[k] == b.journal[k];
    LiveWithout(m, j, Dead(j), k);
    SumFlip(m, j[k].postings);
  }

  lemma {:induction false} PlainStep(b: Book, m: Measure)
    requires Inv(b) && b.journal != [] && !b.journal[|b.journal| - 1].key.ReverseRef?
    requires var j := Shorter(b).journal; Total(m, j) == LiveTotal(m, j, Dead(j))
    ensures Total(m, b.journal) == LiveTotal(m, b.journal, Dead(b.journal))
  {
    LastNotDead(b);
    DeadSnoc(b.journal);
    assert Dead(b.journal) == Dead(b.journal[..|b.journal| - 1]);
  }

  /** The last entry neither repeats a reversal nor re-credits a reversed deposit. */
  lemma {:induction false} LastNotDead(b: Book)
    requires Inv(b) && b.journal != []
    ensures var n := |b.journal| - 1;
      var key, dead := b.journal[n].key, Dead(b.journal[..n]);
      key.ReverseRef? || key.DepositRef? ==> key.ref !in dead
  {
    var n := |b.journal| - 1;
    var key := b.journal[n].key;
    ShorterInv(b);
    FreshKey(b.journal);
    var c := Shorter(b);
    forall ref | ref in Dead(c.journal)
      ensures ReverseRef(ref) in Keys(c.journal) && DepositRef(ref) in Keys(c.journal)
    {
      StillReversed(c, ref);
      DeadWasDeposited(c, ref);
    }
  }

  lemma {:induction false} StillReversed(c: Book, ref: string)
    requires ref in Dead(c.journal)
    ensures ReverseRef(ref) in Keys(c.journal)
  {
    var i :| 0 <= i < |c.journal| && c.journal[i].key.ReverseRef? && c.journal[i].key.ref == ref;
    assert c.journal[i].key == ReverseRef(ref);
  }

  lemma {:induction false} FreshKey(j: seq<Entry>)
    requires UniqueKeys(j) && j != []
    ensures j[|j| - 1].key !in Keys(j[..|j| - 1])
  {
  }

  // ---------------------------------------------------------------- solvency

  /** Each posting falls under exactly one account type. */
  lemma {:induction false} TrialBalance(ps: seq<Posting>, s: string)
    requires Known(ps)
    ensures Sum(OfType(Asset, s), ps) + Sum(OfType(Expense, s), ps)
         == Sum(OfType(Liability, s), ps) + Sum(OfType(Revenue, s), ps) + Sum(OfAsset(s), ps)
  {
    if ps != [] { TrialBalance(ps[..|ps| - 1], s); }
  }

  lemma {:induction false} FlipKnown(ps: seq<Posting>)
    requires Known(ps)
    ensures Known(Flip(ps))
  {
  }

  /** The fee an event earns, straight from its inputs. */
  function FeeCharged(e: Event, s: string): int
  {
    match e
    case CreditDeposit(_, _, _, _, asset, amount, bps) =>
      if asset == s && SplitFee(amount, bps).Success? then SplitFee(amount, bps).value.0 else 0
    case ReleaseDeposit(_, _, _, asset, amount, fee) => if asset == s then fee else 0
    case _ => 0
  }

  function NetworkFeeOf(fee: Option<NetworkFee>, s: string): int
  {
    if fee.Some? && fee.value.asset == s && fee.value.amount > 0 then fee.value.amount else 0
  }

  /** The network fee an event pays, straight from its inputs. */
  function NetworkFeePaid(e: Event, s: string): int
  {
    match e
    case Settle(_, _, fee) => NetworkFeeOf(fee, s)
    case SweepFee(_, _, _, _, _, fee) => NetworkFeeOf(fee, s)
    case _ => 0
  }

  /** What an entry does to revenue and expense, and that its accounts are known. */
  ghost predicate Moves(ps: seq<Posting>, s: string, revenue: int, expense: int)
  {
    && Accepted(ps) && Known(ps)
    && Sum(OfType(Revenue, s), ps) == revenue && Sum(OfType(Expense, s), ps) == expense
  }

  lemma {:induction false} SplitMoves(a: string, b: string, c: string, asset: string, x: int, y: int, z: int, s: string)
    requires x > 0 && y > 0 && z >= 0 && x == y + z
    requires OnSheet(a) && OnSheet(b) && AccountTypeOf(c) == Some(Revenue)
    ensures Moves([Posting(a, asset, x, Debit), Posting(b, asset, y, Credit)]
                  + if z > 0 then [Posting(c, asset, z, Credit)] else [], s, if asset == s then z else 0, 0)
  {
    var p, q := Posting(a, asset, x, Debit), Posting(b, asset, y, Credit);
    var rest := if z > 0 then [Posting(c, asset, z, Credit)] else [];
    SplitAccepted(a, b, c, asset, x, y, z);
    SumPair(OfType(Revenue, s), p, q, rest);
    SumPair(OfType(Expense, s), p, q, rest);
    if z > 0 {
      SumOne(OfType(Revenue, s), rest[0]);
      SumOne(OfType(Expense, s), rest[0]);
    }
  }

  /** A balance-sheet account: an asset or a liability. */
  predicate OnSheet(account: string)
  {
    AccountTypeOf(account) == Some(Asset) || AccountTypeOf(account) == Some(Liability)
  }

  lemma {:induction false} OutMoves(a: string, b: string, asset: string, x: int, fee: Option<NetworkFee>, s: string)
    requires x > 0 && FeeLegTyped(fee) && OnSheet(a) && OnSheet(b)
    ensures Moves([Posting(a, asset, x, Debit), Posting(b, asset, x, Credit)] + NetworkFeePostings(fee), s, 0,
      NetworkFeeOf(fee, s))
  {
    var p, q := Posting(a, asset, x, Debit), Posting(b, asset, x, Credit);
    MoveAccepted(a, b, asset, x, fee);
    SumPair(OfType(Revenue, s), p, q, NetworkFeePostings(fee));
    SumPair(OfType(Expense, s), p, q, NetworkFeePostings(fee));
    FeeLegMoves(fee, s);
  }

  lemma {:induction false} FeeLegMoves(fee: Option<NetworkFee>, s: string)
    requires FeeLegTyped(fee)
    ensures Known(NetworkFeePostings(fee))
    ensures Sum(OfType(Revenue, s), NetworkFeePostings(fee)) == 0
    ensures Sum(OfType(Expense, s), NetworkFeePostings(fee)) == NetworkFeeOf(fee, s)
  {
    var rest := NetworkFeePostings(fee);
    if rest != [] {
      assert rest == [rest[0], rest[1]] + [];
      SumPair(OfType(Revenue, s), rest[0], rest[1], []);
      SumPair(OfType(Expense, s), rest[0], rest[1], []);
    }
  }

  lemma {:induction false} PlainMoves(a: string, b: string, asset: string, x: int, s: string)
    requires x > 0 && OnSheet(a) && OnSheet(b)
    ensures Moves([Posting(a, asset, x, Debit), Posting(b, asset, x, Credit)], s, 0, 0)
  {
    var ps := [Posting(a, asset, x, Debit), Posting(b, asset, x, Credit)];
    OutMoves(a, b, asset, x, None, s);
    assert ps + NetworkFeePostings(None) == ps;
  }

  lemma {:induction false} CreditMoves(e: Event, entry: Entry, s: string)
    requires e.CreditDeposit? && Build(e) == Success(entry)
    ensures Moves(entry.postings, s, FeeCharged(e, s), 0)
  {
    var (fee, net) := SplitFee(e.amount, e.bps).value;
    TypesOfNames(e.tenant, e.merchant, e.chain);
    SplitMoves(PoolAddr(e.chain, e.merchant), MerchantAvailable(e.tenant, e.merchant), FeeRevenue(e.tenant),
               e.asset, e.amount, net, fee, s);
  }

  lemma {:induction false} ReleaseMoves(e: Event, entry: Entry, s: string)
    requires e.ReleaseDeposit? && Build(e) == Success(entry)
    ensures Moves(entry.postings, s, FeeCharged(e, s), 0)
  {
    TypesOfNames(e.tenant, e.merchant, "");
    SplitMoves(ComplianceSuspense(e.tenant), MerchantAvailable(e.tenant, e.merchant), FeeRevenue(e.tenant),
               e.asset, e.amount + e.fee, e.amount, e.fee, s);
  }

  lemma {:induction false} BuiltMoves(e: Event, entry: Entry, s: string)
    requires !e.ReverseDeposit? && Legal(e) && Build(e) == Success(entry)
    ensures Moves(entry.postings, s, FeeCharged(e, s), NetworkFeePaid(e, s))
  {
    match e
    case CreditDeposit(_, _, _, _, _, _, _) => CreditMoves(e, entry, s);
    case ReleaseDeposit(_, _, _, _, _, _) => ReleaseMoves(e, entry, s);
    case QuarantineDeposit(_, tenant, merchant, chain, asset, amount) =>
      TypesOfNames(tenant, merchant, chain);
      PlainMoves(PoolAddr(chain, merchant), ComplianceSuspense(tenant), asset, amount, s);
    case Lock(_, p) =>
      TypesOfNames(p.tenant, p.merchant, p.chain);
      PlainMoves(MerchantAvailable(p.tenant, p.merchant), MerchantPendingWithdrawal(p.tenant, p.merchant), p.asset,
        p.amount, s);
    case Settle(_, p, fee) =>
      TypesOfNames(p.tenant, p.merchant, p.chain);
      OutMoves(MerchantPendingWithdrawal(p.tenant, p.merchant), PoolAddr(p.chain, p.merchant), p.asset, p.amount,
        fee, s);
    case SweepFee(_, merchant, chain, asset, amount, fee) =>
      TypesOfNames("", merchant, chain);
      OutMoves(Treasury(chain), PoolAddr(chain, merchant), asset, amount, fee, s);
  }

  lemma {:induction false} EntryKnown(b: Book, i: int)
    requires Inv(b) && 0 <= i < |b.journal|
    ensures Accepted(b.journal[i].postings) && Known(b.journal[i].postings)
    decreases i
  {
    assert Explained(b, i);
    if b.events[i].ReverseDeposit? {
      var k :| Undoes(b.journal, i, k, b.events[i].ref);
      EntryKnown(b, k);
      FlipAccepted(b.journal[k].postings);
      FlipKnown(b.journal[k].postings);
    } else {
      BuiltMoves(b.events[i], b.journal[i], "");
    }
  }

  /** Assets plus expenses equal liabilities plus revenue, in every asset. */
  lemma {:induction false} BooksBalance(b: Book, s: string)
    requires Inv(b)
    ensures Total(OfType(Asset, s), b.journal) + Total(OfType(Expense, s), b.journal)
         == Total(OfType(Liability, s), b.journal) + Total(OfType(Revenue, s), b.journal)
    decreases |b.journal|
  {
    if b.journal != [] {
      ShorterInv(b);
      BooksBalance(Shorter(b), s);
      EntryKnown(b, |b.journal| - 1);
      TrialBalance(b.journal[|b.journal| - 1].postings, s);
    }
  }

  /** Fees earned by deposits and releases that still stand. */
  function LiveFees(b: Book, s: string, dead: set<string>): int
    requires |b.journal| == |b.events|
    decreases |b.journal|
  {
    if b.journal == [] then 0
    else
      var n := |b.journal| - 1;
      LiveFees(Shorter(b), s, dead) + if Live(b.journal[n].key, dead) then FeeCharged(b.events[n], s) else 0
  }

  function NetworkFees(events: seq<Event>, s: string): int
  {
    if events == [] then 0 else NetworkFees(events[..|events| - 1], s) + NetworkFeePaid(events[|events| - 1], s)
  }

  lemma {:induction false} LiveRevenue(b: Book, s: string, dead: set<string>)
    requires Inv(b)
    ensures LiveTotal(OfType(Revenue, s), b.journal, dead) == LiveFees(b, s, dead)
    ensures LiveTotal(OfType(Expense, s), b.journal, dead) == NetworkFees(b.events, s)
    ensures LiveFees(b, s, dead) >= 0
    decreases |b.journal|
  {
    if b.journal != [] {
      ShorterInv(b);
      LiveRevenue(Shorter(b), s, dead);
      LastFees(b, s);
    }
  }

  /** The last entry's revenue and expense, unless it is a reversal. */
  lemma {:induction false} LastFees(b: Book, s: string)
    requires Inv(b) && b.journal != []
    ensures var entry, e := b.journal[|b.journal| - 1], b.events[|b.journal| - 1];
      if entry.key.ReverseRef? then NetworkFeePaid(e, s) == 0
      else
        && Sum(OfType(Revenue, s), entry.postings) == FeeCharged(e, s) >= 0
        && Sum(OfType(Expense, s), entry.postings) == NetworkFeePaid(e, s)
        && (entry.key.DepositRef? ==> NetworkFeePaid(e, s) == 0)
  {
    var n := |b.journal| - 1;
    assert Explained(b, n);
    KeyOfEvent(b, n);
    if !b.events[n].ReverseDeposit? {
      BuiltMoves(b.events[n], b.journal[n], s);
      FeesNonNegative(b.events[n], b.journal[n], s);
    }
  }

  lemma {:induction false} FeesNonNegative(e: Event, entry: Entry, s: string)
    requires !e.ReverseDeposit? && Legal(e) && Build(e) == Success(entry)
    ensures FeeCharged(e, s) >= 0
    ensures entry.key.DepositRef? ==> NetworkFeePaid(e, s) == 0
  {
  }

  /** The ledger's gate, over every run: revenue is exactly the fees still standing,
      expense is exactly the network fees paid, and so an asset is solvent exactly when its
      standing fees cover its network fees. */
  lemma {:induction false} SolventExactly(events: seq<Event>, s: string)
    requires AllLegal(events)
    ensures var b := Run(events);
      && |b.journal| == |b.events|
      && Total(OfType(Revenue, s), b.journal) == LiveFees(b, s, Dead(b.journal)) >= 0
      && Total(OfType(Expense, s), b.journal) == NetworkFees(b.events, s)
      && (Solvent(b.journal, s) <==> NetworkFees(b.events, s) <= LiveFees(b, s, Dead(b.journal)))
  {
    var b := Run(events);
    RunKeepsInv(events);
    BooksBalance(b, s);
    ReversalsCancel(b, OfType(Revenue, s));
    ReversalsCancel(b, OfType(Expense, s));
    LiveRevenue(b, s, Dead(b.journal));
  }

  /** Without network-fee legs, the only case the engine produces, every run is solvent. */
  lemma {:induction false} AlwaysSolvent(events: seq<Event>, s: string)
    requires AllLegal(events)
    requires forall i :: 0 <= i < |events| ==> NetworkFeePaid(events[i], s) == 0
    ensures Solvent(Run(events).journal, s)
  {
    SolventExactly(events, s);
    RecordedEvents(events);
    NoNetworkFees(Run(events).events, events, s);
  }

  lemma {:induction false} RecordedEvents(events: seq<Event>)
    ensures forall e :: e in Run(events).events ==> e in events
  {
    if events != [] { RecordedEvents(events[..|events| - 1]); }
  }

  lemma {:induction false} NoNetworkFees(recorded: seq<Event>, events: seq<Event>, s: string)
    requires forall e :: e in recorded ==> e in events
    requires forall i :: 0 <= i < |events| ==> NetworkFeePaid(events[i], s) == 0
    ensures NetworkFees(recorded, s) == 0
  {
    if recorded != [] {
      NoNetworkFees(recorded[..|recorded| - 1], events, s);
      var last := recorded[|recorded| - 1];
      assert last in recorded;
      var i :| 0 <= i < |events| && events[i] == last;
    }
  }

  /** The condition is needed: one paid network fee with no revenue behind it leaves its
      asset insolvent. */
  lemma {:induction false} NetworkFeeSinks(key: string, p: Payout, fee: NetworkFee)
    requires p.amount > 0 && fee.amount > 0 && FeeLegTyped(Some(fee))
    ensures !Solvent(Run([Settle(key, p, Some(fee))]).journal, fee.asset)
  {
    var e := Settle(key, p, Some(fee));
    var b := RunOfOne(e);
    SolventExactly([e], fee.asset);
    assert [e][..0] == [];
    assert NetworkFees([e], fee.asset) == fee.amount;
    NoFees(b, fee.asset, Dead(b.journal));
  }

  lemma {:induction false} RunOfOne(e: Event) returns (b: Book)
    requires e.Settle? && Build(e).Success?
    ensures b == Run([e]) == Book([Build(e).value], [e])
  {
    b := Run([e]);
    assert [e][..|[e]| - 1] == [] && [e][|[e]| - 1] == e;
    assert b == Apply(Run([]), e);
  }

  lemma {:induction false} NoFees(b: Book, s: string, dead: set<string>)
    requires |b.journal| == |b.events| == 1 && FeeCharged(b.events[0], s) == 0
    ensures LiveFees(b, s, dead) == 0
  {
    assert Shorter(b).journal == [];
  }
}
