/** Double-entry postings, account classification and the journal-entry builders
    (backend/src/ledger: account-classify.ts, balanced.ts, posting-flows.ts, entry.ts). */
module Ledger {
  import opened Wrappers
  import opened Pattern

  // ---------------------------------------------------------------- accounts

  datatype AccountType = Liability | Asset | Revenue | Expense

  /** `key.split(":", 1)[0]`. */
  function PrefixOf(key: string): string
  {
    if key == "" || key[0] == ':' then "" else [key[0]] + PrefixOf(key[1..])
  }

  function TypeOfPrefix(prefix: string): Option<AccountType>
  {
    if StartsWith(prefix, "merchant_") || prefix == "compliance_suspense" then Some(Liability)
    else if StartsWith(prefix, "pool_addr") || prefix in {"treasury", "cold", "gas_float"} then Some(Asset)
    else if EndsWith(prefix, "_revenue") then Some(Revenue)
    else if EndsWith(prefix, "_expense") then Some(Expense)
    else None
  }

  /** `accountTypeOf`; None is the exception for an unknown prefix. */
  function AccountTypeOf(key: string): Option<AccountType> { TypeOfPrefix(PrefixOf(key)) }

  predicate DebitNormal(t: AccountType) { t == Asset || t == Expense }

  /** `normalBalance`. */
  function NormalBalance(key: string, signedNetDebitPositive: int): Option<int>
  {
    match AccountTypeOf(key)
    case None => None
    case Some(t) => Some(if DebitNormal(t) then signedNetDebitPositive else -signedNetDebitPositive)
  }

  lemma {:induction false} PrefixOfNamed(p: string, rest: string)
    requires ':' !in p
    ensures PrefixOf(p + ":" + rest) == p
  {
    var s := p + ":" + rest;
    if p != "" {
      PrefixOfNamed(p[1..], rest);
      assert s[1..] == p[1..] + ":" + rest;
    }
  }

  // The account names the engine uses.
  function PoolAddr(chain: string, merchant: string): string { "pool_addr" + ":" + (chain + ":" + merchant) }
  function Treasury(chain: string): string { "treasury" + ":" + chain }
  function MerchantAvailable(tenant: string, merchant: string): string
  {
    "merchant_available" + ":" + (tenant + ":" + merchant)
  }
  function MerchantPendingWithdrawal(tenant: string, merchant: string): string
  {
    "merchant_pending_withdrawal" + ":" + (tenant + ":" + merchant)
  }
  function ComplianceSuspense(tenant: string): string { "compliance_suspense" + ":" + tenant }
  function FeeRevenue(tenant: string): string { "egofi_fee_revenue" + ":" + tenant }

  lemma {:induction false} PrefixesOfNames(tenant: string, merchant: string, chain: string)
    ensures PrefixOf(PoolAddr(chain, merchant)) == "pool_addr" && PrefixOf(Treasury(chain)) == "treasury"
    ensures PrefixOf(MerchantAvailable(tenant, merchant)) == "merchant_available"
    ensures PrefixOf(MerchantPendingWithdrawal(tenant, merchant)) == "merchant_pending_withdrawal"
    ensures PrefixOf(ComplianceSuspense(tenant)) == "compliance_suspense"
    ensures PrefixOf(FeeRevenue(tenant)) == "egofi_fee_revenue"
  {
    PrefixOfNamed("pool_addr", chain + ":" + merchant);
    PrefixOfNamed("treasury", chain);
    PrefixOfNamed("merchant_available", tenant + ":" + merchant);
    PrefixOfNamed("merchant_pending_withdrawal", tenant + ":" + merchant);
    PrefixOfNamed("compliance_suspense", tenant);
    PrefixOfNamed("egofi_fee_revenue", tenant);
  }

  lemma {:induction false} TypesOfPrefixes()
    ensures TypeOfPrefix("pool_addr") == Some(Asset) == TypeOfPrefix("treasury")
    ensures TypeOfPrefix("merchant_available") == Some(Liability) == TypeOfPrefix("merchant_pending_withdrawal")
    ensures TypeOfPrefix("compliance_suspense") == Some(Liability)
    ensures TypeOfPrefix("egofi_fee_revenue") == Some(Revenue)
  {
    var a, w := "merchant_available", "merchant_pending_withdrawal";
    var p, t, r := "pool_addr", "treasury", "egofi_fee_revenue";
    assert a[..9] == "merchant_" && w[..9] == "merchant_" && p[..9] == "pool_addr";
    assert p[0] != "merchant_"[0] && t[0] != "merchant_"[0] && t[0] != p[0];
    assert r[0] != "merchant_"[0] && r[0] != p[0] && r[0] != t[0];
    assert r !in {"treasury", "cold", "gas_float"} && r != "compliance_suspense";
    assert r[|r| - |"_revenue"|..] == "_revenue";
  }

  /** Every account the engine names has the type the books need. */
  lemma {:induction false} TypesOfNames(tenant: string, merchant: string, chain: string)
    ensures AccountTypeOf(PoolAddr(chain, merchant)) == Some(Asset) == AccountTypeOf(Treasury(chain))
    ensures AccountTypeOf(MerchantAvailable(tenant, merchant)) == Some(Liability)
    ensures AccountTypeOf(MerchantPendingWithdrawal(tenant, merchant)) == Some(Liability)
    ensures AccountTypeOf(ComplianceSuspense(tenant)) == Some(Liability)
    ensures AccountTypeOf(FeeRevenue(tenant)) == Some(Revenue)
  {
    PrefixesOfNames(tenant, merchant, chain);
    TypesOfPrefixes();
  }

  // ---------------------------------------------------------------- postings

  datatype Direction = Debit | Credit

  datatype Posting = Posting(account: string, asset: string, amount: int, direction: Direction)

  function Signed(p: Posting): int { if p.direction == Debit then p.amount else -p.amount }

  function FlipOne(p: Posting): Posting
  {
    p.(direction := if p.direction == Debit then Credit else Debit)
  }

  function Flip(ps: seq<Posting>): (r: seq<Posting>)
    ensures |r| == |ps|
  {
    seq(|ps|, i requires 0 <= i < |ps| => FlipOne(ps[i]))
  }

  function When(c: bool, x: int): int { if c then x else 0 }

  /** The figures the engine reads off a list of postings. */
  datatype Measure =
    | OfAccount(account: string, asset: string)
    | OfType(accountType: AccountType, asset: string)
    | OfAsset(asset: string)
    | OfPattern(pattern: string, asset: string)

  function Weigh(m: Measure, p: Posting): int
  {
    if p.asset != m.asset then 0
    else match m
      case OfAccount(a, _) => if p.account == a then Signed(p) else 0
      case OfType(t, _) =>
        if AccountTypeOf(p.account) != Some(t) then 0 else if DebitNormal(t) then Signed(p) else -Signed(p)
      case OfAsset(_) => Signed(p)
      case OfPattern(pattern, _) => if Like(pattern, p.account) then Signed(p) else 0
  }

  function Sum(m: Measure, ps: seq<Posting>): int
  {
    if ps == [] then 0 else Sum(m, ps[..|ps| - 1]) + Weigh(m, ps[|ps| - 1])
  }

  lemma {:induction false} SumConcat(m: Measure, a: seq<Posting>, b: seq<Posting>)
    ensures Sum(m, a + b) == Sum(m, a) + Sum(m, b)
  {
    if b == [] {
      assert a + b == a;
    } else {
      var k := |b| - 1;
      SumConcat(m, a, b[..k]);
      assert (a + b)[..|a| + k] == a + b[..k];
    }
  }

  /** Flipping every posting negates every figure. */
  lemma {:induction false} SumFlip(m: Measure, ps: seq<Posting>)
    ensures Sum(m, Flip(ps)) == -Sum(m, ps)
  {
    if ps != [] {
      var k := |ps| - 1;
      SumFlip(m, ps[..k]);
      assert Flip(ps)[..k] == Flip(ps[..k]);
    }
  }

  // ---------------------------------------------------------------- balanced

  datatype LedgerError = InvalidPosting | Unbalanced | InsufficientFunds | UnknownEntry | UnknownAccount

  ghost predicate AllPositive(ps: seq<Posting>)
  {
    forall i :: 0 <= i < |ps| ==> ps[i].amount > 0
  }

  /** Every account has a type. */
  ghost predicate Known(ps: seq<Posting>)
  {
    forall i :: 0 <= i < |ps| ==> AccountTypeOf(ps[i].account).Some?
  }

  /** What assertBalanced accepts. */
  ghost predicate Accepted(ps: seq<Posting>)
  {
    ps != [] && AllPositive(ps) && forall a :: Sum(OfAsset(a), ps) == 0
  }

  /** `nettedByAsset`. */
  method NettedByAsset(ps: seq<Posting>) returns (r: Result<map<string, int>, LedgerError>)
    ensures r.Failure? <==> !AllPositive(ps)
    ensures r.Success? ==> forall a :: Sum(OfAsset(a), ps) == if a in r.value then r.value[a] else 0
  {
    var net: map<string, int> := map[];
    var i := 0;
    while i < |ps|
      invariant 0 <= i <= |ps|
      invariant forall k :: 0 <= k < i ==> ps[k].amount > 0
      invariant forall a :: Sum(OfAsset(a), ps[..i]) == if a in net then net[a] else 0
    {
      var p := ps[i];
      if p.amount <= 0 {
        return Failure(InvalidPosting);
      }
      assert ps[..i + 1][..i] == ps[..i];
      ghost var before := net;
      net := net[p.asset := (if p.asset in net then net[p.asset] else 0) + Signed(p)];
      forall a ensures Sum(OfAsset(a), ps[..i + 1]) == if a in net then net[a] else 0 {
        assert Sum(OfAsset(a), ps[..i]) == if a in before then before[a] else 0;
      }
      i := i + 1;
    }
    assert ps[..i] == ps;
    return Success(net);
  }

  /** `assertBalanced`: accepts exactly the non-empty lists of positive postings that
      net to zero in every asset. */
  method AssertBalanced(ps: seq<Posting>) returns (r: Result<(), LedgerError>)
    ensures r.Success? <==> Accepted(ps)
  {
    if |ps| == 0 {
      return Failure(Unbalanced);
    }
    var net := NettedByAsset(ps);
    if net.Failure? {
      return Failure(net.error);
    }
    var keys := net.value.Keys;
    while keys != {}
      invariant keys <= net.value.Keys
      invariant forall a :: a in net.value && a !in keys ==> net.value[a] == 0
      decreases keys
    {
      var a :| a in keys;
      if net.value[a] != 0 {
        assert Sum(OfAsset(a), ps) != 0;
        return Failure(Unbalanced);
      }
      keys := keys - {a};
    }
    return Success(());
  }

  // ---------------------------------------------------------------- builders

  /** Entry identifiers and idempotency keys. The engine spells them as strings; here each
      family has its own constructor. */
  datatype EntryKey =
    | DepositRef(ref: string)
    | ReverseRef(ref: string)
    | ReleaseKey(id: string)
    | LockKey(payout: string)
    | SettleKey(payout: string)
    | FeeKey(payout: string, leg: nat)
    | SweepKey(chain: string, address: string, asset: string, amount: int)

  datatype Entry = Entry(key: EntryKey, postings: seq<Posting>)

  /** `splitFee`. */
  function SplitFee(amount: int, feeBasisPoints: int): (r: Result<(int, int), LedgerError>)
    ensures r.Success? <==> amount > 0 && 0 <= feeBasisPoints < 10_000
    ensures r.Success? ==>
      var (fee, net) := r.value;
      && fee + net == amount && fee >= 0 && net > 0
      && fee * 10_000 <= amount * feeBasisPoints < (fee + 1) * 10_000
  {
    if amount <= 0 || feeBasisPoints < 0 || feeBasisPoints >= 10_000 then Failure(InvalidPosting)
    else
      var fee := (amount * feeBasisPoints) / 10_000;
      assert 0 <= amount * feeBasisPoints < amount * 10_000;
      Success((fee, amount - fee))
  }

  function DepositFinalized(key: EntryKey, asset: string, amount: int, feeBasisPoints: int, poolAddr: string,
                            merchantAvailable: string, feeRevenue: string): (r: Result<Entry, LedgerError>)
    ensures r.Success? <==> SplitFee(amount, feeBasisPoints).Success?
  {
    var split := SplitFee(amount, feeBasisPoints);
    if split.Failure? then Failure(split.error)
    else
      var (fee, net) := split.value;
      Success(Entry(key,
        [Posting(poolAddr, asset, amount, Debit), Posting(merchantAvailable, asset, net, Credit)]
        + if fee > 0 then [Posting(feeRevenue, asset, fee, Credit)] else []))
  }

  function DepositQuarantined(key: EntryKey, asset: string, amount: int, poolAddr: string, suspense: string)
    : Result<Entry, LedgerError>
  {
    if amount <= 0 then Failure(InvalidPosting)
    else Success(Entry(key, [Posting(poolAddr, asset, amount, Debit), Posting(suspense, asset, amount, Credit)]))
  }

  function DepositReleased(key: EntryKey, asset: string, amount: int, fee: int, suspense: string,
                           merchantAvailable: string, feeRevenue: string): Result<Entry, LedgerError>
  {
    if amount <= 0 || fee < 0 then Failure(InvalidPosting)
    else Success(Entry(key,
      [Posting(suspense, asset, amount + fee, Debit), Posting(merchantAvailable, asset, amount, Credit)]
      + if fee > 0 then [Posting(feeRevenue, asset, fee, Credit)] else []))
  }

  function PayoutLocked(key: EntryKey, asset: string, amount: int, available: string, pending: string)
    : Result<Entry, LedgerError>
  {
    if amount <= 0 then Failure(InvalidPosting)
    else Success(Entry(key, [Posting(available, asset, amount, Debit), Posting(pending, asset, amount, Credit)]))
  }

  datatype NetworkFee = NetworkFee(asset: string, amount: int, gasFloat: string, expense: string)

  function NetworkFeePostings(fee: Option<NetworkFee>): seq<Posting>
  {
    if fee.None? || fee.value.amount <= 0 then []
    else [Posting(fee.value.expense, fee.value.asset, fee.value.amount, Debit),
          Posting(fee.value.gasFloat, fee.value.asset, fee.value.amount, Credit)]
  }

  /** `payoutSettled` and `feeSwept` differ only in the account they debit. */
  function OutOfPool(key: EntryKey, asset: string, amount: int, debited: string, poolAddr: string,
                     networkFee: Option<NetworkFee>): Result<Entry, LedgerError>
  {
    if amount <= 0 then Failure(InvalidPosting)
    else Success(Entry(key,
      [Posting(debited, asset, amount, Debit), Posting(poolAddr, asset, amount, Credit)]
      + NetworkFeePostings(networkFee)))
  }

  // ------------------------------------------------- what the builders promise

  lemma {:induction false} SumPair(m: Measure, p: Posting, q: Posting, rest: seq<Posting>)
    ensures Sum(m, [p, q] + rest) == Weigh(m, p) + Weigh(m, q) + Sum(m, rest)
  {
    SumConcat(m, [p, q], rest);
    assert [p, q][..1] == [p] && [p][..0] == [];
    assert Sum(m, [p]) == Weigh(m, p);
  }

  lemma {:induction false} SumOne(m: Measure, p: Posting)
    ensures Sum(m, [p]) == Weigh(m, p)
  {
    assert [p][..0] == [];
  }

  /** A debit against one or two credits of one asset is always accepted. */
  lemma {:induction false} SplitAccepted(a: string, b: string, c: string, asset: string, x: int, y: int, z: int)
    requires x > 0 && y > 0 && z >= 0 && x == y + z
    ensures Accepted([Posting(a, asset, x, Debit), Posting(b, asset, y, Credit)]
                     + if z > 0 then [Posting(c, asset, z, Credit)] else [])
  {
    var rest := if z > 0 then [Posting(c, asset, z, Credit)] else [];
    var p, q := Posting(a, asset, x, Debit), Posting(b, asset, y, Credit);
    forall s ensures Sum(OfAsset(s), [p, q] + rest) == 0 {
      SumPair(OfAsset(s), p, q, rest);
      if z > 0 { SumOne(OfAsset(s), rest[0]); }
    }
  }

  lemma {:induction false} MoveAccepted(a: string, b: string, asset: string, x: int, fee: Option<NetworkFee>)
    requires x > 0
    ensures Accepted([Posting(a, asset, x, Debit), Posting(b, asset, x, Credit)] + NetworkFeePostings(fee))
  {
    var rest := NetworkFeePostings(fee);
    var p, q := Posting(a, asset, x, Debit), Posting(b, asset, x, Credit);
    forall s ensures Sum(OfAsset(s), [p, q] + rest) == 0 {
      SumPair(OfAsset(s), p, q, rest);
      if rest != [] {
        SumPair(OfAsset(s), rest[0], rest[1], []);
        assert rest == [rest[0], rest[1]] + [];
      }
    }
  }

  lemma {:induction false} FlipAccepted(ps: seq<Posting>)
    requires Accepted(ps)
    ensures Accepted(Flip(ps))
  {
    forall s ensures Sum(OfAsset(s), Flip(ps)) == 0 {
      SumFlip(OfAsset(s), ps);
    }
  }

  /** The remaining fixed accounts, and what is no account at all. */
  lemma {:induction false} TypesOfOtherPrefixes(name: string)
    ensures TypeOfPrefix("cold") == Some(Asset) == TypeOfPrefix("gas_float")
    ensures TypeOfPrefix("merchant_" + name) == Some(Liability) && TypeOfPrefix("pool_addr" + name) == Some(Asset)
    ensures name != "" && name[0] !in {'m', 'p'} ==>
      TypeOfPrefix(name + "_expense") == Some(Expense) && TypeOfPrefix(name + "_revenue") == Some(Revenue)
    ensures TypeOfPrefix("") == None
  {
    assert ("merchant_" + name)[..9] == "merchant_" && ("pool_addr" + name)[..9] == "pool_addr";
    assert "cold"[0] == 'c' && "gas_float"[0] == 'g' && ("pool_addr" + name)[0] == 'p';
    if name != "" && name[0] !in {'m', 'p'} {
      SuffixType(name, "_expense");
      SuffixType(name, "_revenue");
    }
  }

  lemma {:induction false} SuffixType(name: string, suffix: string)
    requires name != "" && name[0] !in {'m', 'p'} && (suffix == "_expense" || suffix == "_revenue")
    ensures TypeOfPrefix(name + suffix) == Some(if suffix == "_expense" then Expense else Revenue)
  {
    var s := name + suffix;
    assert s[0] == name[0] && s[|name|..] == suffix;
    assert suffix[0] == '_' && suffix[7] == 'e' && suffix[1] == if suffix == "_expense" then 'e' else 'r';
  }
}
