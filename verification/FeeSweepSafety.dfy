/** Exactly when a fee sweep that runs alone can leave a merchant short: the pool account's name
    (backend/src/services/fee-sweep.service.ts) leaves the tenant out, and the claim query
    (backend/src/queries/infra.queries.ts) matches names as patterns. */
module FeeSweepSafety {
  import opened Wrappers
  import opened Pattern
  import opened Ledger
  import opened Journal
  import opened FeeSweep
  import opened FeeSweepRun

  datatype Group = Group(merchant: Merchant, chain: string)

  predicate OnGroups(sites: seq<Site>, groups: seq<Group>)
  {
    |sites| == |groups|
    && forall k :: 0 <= k < |groups| ==> sites[k].merchant == groups[k].merchant && sites[k].chain == groups[k].chain
  }

  /** A journal as the ledger service keeps it: accepted entries on accounts with a type. */
  ghost predicate Sound(j: seq<Entry>)
  {
    UniqueKeys(j) && forall i :: 0 <= i < |j| ==> Accepted(j[i].postings) && Known(j[i].postings)
  }

  /** No sweep of these groups can leave the merchant short, if nothing else is posted during it. */
  ghost predicate Safe(m: Merchant, groups: seq<Group>, asset: string)
  {
    forall j: seq<Entry>, sites: seq<Site>, dust: int ::
      OnGroups(sites, groups) && Sound(j) && Surplus(j, m, asset) >= 0 ==>
      Surplus(SweepSites(Start(j), sites, asset, dust, |sites|).journal, m, asset) >= 0
  }

  /** The group's pool account is not counted as the merchant's, or all its claims are. */
  ghost predicate Harmless(m: Merchant, g: Group)
  {
    SameClaims(m, g.merchant) || !Like(PoolPattern(m), PoolAddr(g.chain, g.merchant.name))
  }

  /** For any names at all, a merchant is safe if and only if every group is harmless. */
  lemma {:induction false} SafeExactly(m: Merchant, groups: seq<Group>, asset: string)
    ensures Safe(m, groups, asset) <==> forall k :: 0 <= k < |groups| ==> Harmless(m, groups[k])
  {
    if forall k :: 0 <= k < |groups| ==> Harmless(m, groups[k]) {
      forall j: seq<Entry>, sites: seq<Site>, dust: int
        | OnGroups(sites, groups) && Sound(j) && Surplus(j, m, asset) >= 0
        ensures Surplus(SweepSites(Start(j), sites, asset, dust, |sites|).journal, m, asset) >= 0
      {
        forall k | 0 <= k < |sites| ensures Apart(m, sites[k]) { assert Harmless(m, groups[k]); }
        SweepKeepsCover(Start(j), m, sites, asset, dust, |sites|);
      }
    } else {
      var k :| 0 <= k < |groups| && !Harmless(m, groups[k]);
      HarmfulIsUnsafe(m, groups, asset, k);
    }
  }

  // --------------------------------------------------- a harmful group does harm

  /** Every pattern matches something. */
  lemma {:induction false} LikeSomething(p: string) returns (s: string)
    ensures Like(p, s)
  {
    if p == "" {
      s := "";
    } else if p[0] == '%' {
      s := LikeSomething(p[1..]);
    } else if p[0] == '\\' && |p| > 1 {
      s := LikeSomething(p[2..]);
      s := [p[1]] + s;
    } else {
      s := LikeSomething(p[1..]);
      s := [p[0]] + s;
    }
  }

  /** An account that differs from a claimed one only in the letter that the pool pattern's
      underscore stands for: it is claimed by the same merchants, and it has a type. */
  lemma {:induction false} TypedTwin(m: Merchant, account: string) returns (twin: string)
    requires Claimed(m, account)
    ensures AccountTypeOf(twin).Some?
    ensures forall other: Merchant :: Claimed(other, twin) <==> Claimed(other, account)
  {
    if Like(LiabilityPattern(m), account) {
      LiabilityType(m, account);
      twin := account;
    } else {
      LikeFirst(PoolPattern(m), account);
      PoolShape(m, account);
      twin := account[4 := '_'];
      forall other: Merchant ensures Claimed(other, twin) <==> Claimed(other, account) {
        TwinClaims(other, account);
      }
      PoolType(m, twin);
      assert twin[..10] == "pool_addr:";
    }
  }

  lemma {:induction false} PoolShape(m: Merchant, account: string)
    requires Like(PoolPattern(m), account)
    ensures |account| >= 10 && account[..4] == "pool" && account[5..10] == "addr:"
  {
    var tail := "addr:" + ("%:" + m.name);
    assert PoolPattern(m) == "pool" + ("_" + tail);
    LikeHead("pool", "_" + tail, account);
    var rest := account[4..];
    assert ("_" + tail)[1..] == tail && rest != "";
    LikeHead("addr:", "%:" + m.name, rest[1..]);
    assert rest[1..][..5] == account[5..10];
  }

  lemma {:induction false} TwinClaims(m: Merchant, account: string)
    requires |account| >= 10 && account[0] == 'p'
    ensures Claimed(m, account[4 := '_']) <==> Claimed(m, account)
  {
    var tail, twin := "addr:" + ("%:" + m.name), account[4 := '_'];
    assert PoolPattern(m) == "pool" + ("_" + tail);
    LikeHead("pool", "_" + tail, account);
    LikeHead("pool", "_" + tail, twin);
    assert account[..4] == twin[..4] && account[4..][1..] == twin[4..][1..] && ("_" + tail)[1..] == tail;
    var l := LiabilityPattern(m);
    assert l[0] == 'm';
    if Like(l, account) { LikeFirst(l, account); }
    if Like(l, twin) { LikeFirst(l, twin); }
  }

  lemma {:induction false} TreasuryIsUnclaimed(m: Merchant)
    ensures !Claimed(m, Treasury("")) && AccountTypeOf(Treasury("")).Some?
  {
    AccountsApart(m, "", "");
    TypesOfNames("", "", "");
  }

  /** A debit and a credit that the other merchant sees as a surplus and m does not. */
  lemma {:induction false} Separate(m: Merchant, g: Group) returns (debit: string, credit: string)
    requires !Harmless(m, g)
    ensures Claimed(g.merchant, debit) && !Claimed(g.merchant, credit)
    ensures Claimed(m, debit) <==> Claimed(m, credit)
    ensures AccountTypeOf(debit).Some? && AccountTypeOf(credit).Some?
  {
    var pool := PoolAddr(g.chain, g.merchant.name);
    TypesOfNames("", g.merchant.name, g.chain);
    TreasuryIsUnclaimed(m);
    TreasuryIsUnclaimed(g.merchant);
    var account: string :| Claimed(m, account) != Claimed(g.merchant, account);
    if !Claimed(m, account) {
      debit := TypedTwin(g.merchant, account);
      credit := Treasury("");
    } else if Claimed(g.merchant, pool) {
      debit := pool;
      credit := TypedTwin(m, account);
    } else {
      debit := LikeSomething(LiabilityPattern(g.merchant));
      LiabilityType(g.merchant, debit);
      credit := if Claimed(m, debit) then pool else Treasury("");
    }
  }

  /** One unit moved from the credited to the debited account. */
  function Moved(debit: string, credit: string, asset: string): Entry
  {
    Entry(DepositRef(""), [Posting(debit, asset, 1, Debit), Posting(credit, asset, 1, Credit)])
  }

  lemma {:induction false} MovedIsSound(debit: string, credit: string, asset: string)
    requires AccountTypeOf(debit).Some? && AccountTypeOf(credit).Some?
    ensures Sound([Moved(debit, credit, asset)])
  {
    MoveAccepted(debit, credit, asset, 1, None);
    var ps := Moved(debit, credit, asset).postings;
    assert ps == ps + NetworkFeePostings(None);
  }

  function One(b: bool): int { if b then 1 else 0 }

  lemma {:induction false} MovedSurplus(debit: string, credit: string, m: Merchant, asset: string)
    ensures Surplus([Moved(debit, credit, asset)], m, asset) == One(Claimed(m, debit)) - One(Claimed(m, credit))
  {
    var e := Moved(debit, credit, asset);
    PatternsApart(m, debit);
    PatternsApart(m, credit);
    LegSums(OfPattern(PoolPattern(m), asset), [], e);
    LegSums(OfPattern(LiabilityPattern(m), asset), [], e);
    assert [] + [e] == [e];
  }

  /** One group with one funded address, and every send succeeding. */
  function Active(g: Group): Site
  {
    Site(g.merchant, g.chain, true, true, [Holding("address", 0, 1)], [true])
  }

  function Idle(g: Group): Site { Site(g.merchant, g.chain, false, false, [], []) }

  lemma {:induction false} GroupTakes(m: Merchant, g: Group, asset: string, s: Progress)
    requires Like(PoolPattern(m), PoolAddr(g.chain, g.merchant.name)) && Surplus(s.journal, g.merchant, asset) == 1
    requires forall key :: key in Keys(s.journal) ==> key.DepositRef?
    ensures Surplus(SweepSite(s, Active(g), asset, 0).journal, m, asset) == Surplus(s.journal, m, asset) - 1
  {
    var site, leg := Active(g), Leg("address", 0, 1);
    assert site.holdings[1..] == [];
    assert PlanLegs(site.holdings, map[], 0, 1) == [leg];
    assert PostLegs(s, site, asset, [leg], 0) == s;
    assert SweepSite(s, site, asset, 0) == PostLegs(s, site, asset, [leg], 1) == PostLeg(s, site, asset, leg, true);
    LegMoves(s, m, site, asset, leg, true);
    assert LegEntry(site, asset, leg).value.key !in Keys(s.journal);
  }

  lemma {:induction false} IdleChangesNothing(s: Progress, sites: seq<Site>, asset: string, dust: int, from: nat,
                                              n: nat)
    requires from <= n <= |sites| && forall k :: from <= k < n ==> !sites[k].treasury
    ensures SweepSites(s, sites, asset, dust, n).journal == SweepSites(s, sites, asset, dust, from).journal
  {
    if from < n { IdleChangesNothing(s, sites, asset, dust, from, n - 1); }
  }

  /** Only the k-th group is swept. */
  function OneActive(groups: seq<Group>, k: nat): (sites: seq<Site>)
    requires k < |groups|
    ensures OnGroups(sites, groups) && sites[k] == Active(groups[k])
    ensures forall i :: 0 <= i < |groups| && i != k ==> !sites[i].treasury
  {
    seq(|groups|, i requires 0 <= i < |groups| => if i == k then Active(groups[i]) else Idle(groups[i]))
  }

  lemma {:induction false} HarmfulIsUnsafe(m: Merchant, groups: seq<Group>, asset: string, k: nat)
    requires k < |groups| && !Harmless(m, groups[k])
    ensures !Safe(m, groups, asset)
  {
    var debit, credit := Separate(m, groups[k]);
    var j, sites := [Moved(debit, credit, asset)], OneActive(groups, k);
    MovedIsSound(debit, credit, asset);
    MovedSurplus(debit, credit, m, asset);
    MovedSurplus(debit, credit, groups[k].merchant, asset);
    OnlyThatOne(Start(j), sites, asset, 0, k);
    GroupTakes(m, groups[k], asset, SweepSites(Start(j), sites, asset, 0, k));
    assert Surplus(SweepSites(Start(j), sites, asset, 0, |sites|).journal, m, asset) == -1;
  }

  lemma {:induction false} OnlyThatOne(s: Progress, sites: seq<Site>, asset: string, dust: int, k: nat)
    requires k < |sites| && forall i :: 0 <= i < |sites| && i != k ==> !sites[i].treasury
    ensures SweepSites(s, sites, asset, dust, k).journal == s.journal
    ensures SweepSites(s, sites, asset, dust, |sites|).journal
      == SweepSite(SweepSites(s, sites, asset, dust, k), sites[k], asset, dust).journal
  {
    IdleChangesNothing(s, sites, asset, dust, 0, k);
    IdleChangesNothing(s, sites, asset, dust, k + 1, |sites|);
  }

  // ------------------------------------------------------------------ plain names

  /** A name that neither the pattern language nor the account naming can misread. */
  predicate Simple(name: string) { Plain(name) && ':' !in name }

  predicate SimpleNames(m: Merchant) { Simple(m.tenant) && Simple(m.name) }

  lemma {:induction false} PoolEnds(end: string, rest: string)
    requires Plain(end)
    ensures Like("pool_addr:%" + end, "pool_addr:" + rest) <==> EndsWith(rest, end)
  {
    var tail, account := "addr:" + ("%" + end), "pool_addr:" + rest;
    assert "pool_addr:%" + end == "pool" + ("_" + tail);
    LikeHead("pool", "_" + tail, account);
    assert account[..4] == "pool" && account[4..] == "_" + ("addr:" + rest);
    assert ("_" + tail)[1..] == tail && ("_" + ("addr:" + rest))[1..] == "addr:" + rest;
    LikeHead("addr:", "%" + end, "addr:" + rest);
    assert ("addr:" + rest)[..5] == "addr:" && ("addr:" + rest)[5..] == rest;
    LikeTail(end, rest);
  }

  /** A pool account counts as a merchant's by its merchant name alone. */
  lemma {:induction false} PoolByName(m: Merchant, chain: string, name: string)
    requires Simple(m.name) && Simple(name)
    ensures Like(PoolPattern(m), PoolAddr(chain, name)) <==> name == m.name
  {
    PlainConcat(":", m.name);
    PoolEnds(":" + m.name, chain + ":" + name);
    LastParts(chain, name, ':', "", m.name);
    assert "" + ":" + m.name == ":" + m.name;
    assert PoolPattern(m) == "pool_addr:%" + (":" + m.name);
    assert PoolAddr(chain, name) == "pool_addr:" + (chain + ":" + name);
  }

  lemma {:induction false} LiabilityEnds(end: string, rest: string)
    requires Plain(end)
    ensures Like("merchant\\_%" + end, "merchant_" + rest) <==> EndsWith(rest, end)
  {
    var tail, account := "%" + end, "merchant_" + rest;
    assert "merchant\\_%" + end == "merchant" + ("\\_" + tail);
    LikeHead("merchant", "\\_" + tail, account);
    assert account[..8] == "merchant" && account[8..] == "_" + rest;
    assert ("\\_" + tail)[2..] == tail && ("_" + rest)[1..] == rest;
    LikeTail(end, rest);
  }

  lemma {:induction false} NamesEnd(kind: string, m: Merchant, other: Merchant)
    requires SimpleNames(m) && SimpleNames(other)
    ensures EndsWith(kind + ":" + other.tenant + ":" + other.name, ":" + m.tenant + ":" + m.name) <==> m == other
  {
    LastParts(kind + ":" + other.tenant, other.name, ':', ":" + m.tenant, m.name);
    LastParts(kind, other.tenant, ':', "", m.tenant);
    assert "" + ":" + m.tenant == ":" + m.tenant;
  }

  lemma {:induction false} LiabilityOfKind(kind: string, m: Merchant, other: Merchant)
    requires SimpleNames(m) && SimpleNames(other)
    ensures Like(LiabilityPattern(m), "merchant_" + (kind + ":" + other.tenant + ":" + other.name)) <==> m == other
  {
    var end := ":" + m.tenant + ":" + m.name;
    PlainConcat(":", m.tenant);
    PlainConcat(":" + m.tenant, ":");
    PlainConcat(":" + m.tenant + ":", m.name);
    LiabilityEnds(end, kind + ":" + other.tenant + ":" + other.name);
    NamesEnd(kind, m, other);
    assert LiabilityPattern(m) == "merchant\\_%" + end;
  }

  /** A liability counts by tenant and merchant name. */
  lemma {:induction false} LiabilityByNames(m: Merchant, other: Merchant)
    requires SimpleNames(m) && SimpleNames(other)
    ensures Like(LiabilityPattern(m), MerchantAvailable(other.tenant, other.name)) <==> m == other
    ensures Like(LiabilityPattern(m), MerchantPendingWithdrawal(other.tenant, other.name)) <==> m == other
  {
    LiabilityOfKind("available", m, other);
    AvailableSpelled(other.tenant, other.name);
    LiabilityOfKind("pending_withdrawal", m, other);
    PendingSpelled(other.tenant, other.name);
  }

  lemma {:induction false} AvailableSpelled(tenant: string, name: string)
    ensures MerchantAvailable(tenant, name) == "merchant_" + ("available" + ":" + tenant + ":" + name)
  {
  }

  lemma {:induction false} PendingSpelled(tenant: string, name: string)
    ensures MerchantPendingWithdrawal(tenant, name) == "merchant_" + ("pending_withdrawal" + ":" + tenant + ":" + name)
  {
  }

  /** The available account is never taken for a pool account. */
  lemma {:induction false} AvailableIsNoPool(m: Merchant, other: Merchant)
    ensures !Like(PoolPattern(m), MerchantAvailable(other.tenant, other.name))
  {
    var p, avail := PoolPattern(m), MerchantAvailable(other.tenant, other.name);
    assert p[0] == 'p' && avail[0] == 'm';
    if Like(p, avail) { LikeFirst(p, avail); }
  }

  /** With plain names a group is harmful if and only if it belongs to another tenant's
      merchant of the same name. */
  lemma {:induction false} HarmlessByName(m: Merchant, g: Group)
    requires SimpleNames(m) && SimpleNames(g.merchant)
    ensures Harmless(m, g) <==> (g.merchant.name == m.name ==> g.merchant == m)
  {
    PoolByName(m, g.chain, g.merchant.name);
    LiabilityByNames(m, m);
    LiabilityByNames(g.merchant, m);
    AvailableIsNoPool(g.merchant, m);
    var available := MerchantAvailable(m.tenant, m.name);
    if SameClaims(m, g.merchant) { assert Claimed(m, available) <==> Claimed(g.merchant, available); }
  }

  /** No other tenant has a merchant of this name among the groups. */
  ghost predicate NameIsItsOwn(m: Merchant, groups: seq<Group>)
  {
    forall k :: 0 <= k < |groups| && groups[k].merchant.name == m.name ==> groups[k].merchant == m
  }

  lemma {:induction false} SafeByName(m: Merchant, groups: seq<Group>, asset: string)
    requires SimpleNames(m) && forall k :: 0 <= k < |groups| ==> SimpleNames(groups[k].merchant)
    ensures Safe(m, groups, asset) <==> NameIsItsOwn(m, groups)
  {
    SafeExactly(m, groups, asset);
    forall k | 0 <= k < |groups|
      ensures Harmless(m, groups[k]) <==> (groups[k].merchant.name == m.name ==> groups[k].merchant == m)
    {
      HarmlessByName(m, groups[k]);
    }
  }

  // -------------------------------------------------------------- the engine's names

  /** The letters of a UUID. */
  predicate IsUuid(id: string)
  {
    forall i :: 0 <= i < |id| ==> '0' <= id[i] <= '9' || 'a' <= id[i] <= 'f' || id[i] == '-'
  }

  /** The accounts of the engine: a merchant is an account id, and the account table's primary
      key gives each id one tenant. */
  ghost predicate FromAccounts(m: Merchant, tenantOf: map<string, string>)
  {
    m.name in tenantOf && tenantOf[m.name] == m.tenant && IsUuid(m.name) && IsUuid(m.tenant)
  }

  /** So in the engine no sweep that runs alone can leave a merchant short, whatever it sweeps. */
  lemma {:induction false} EngineIsSafe(m: Merchant, groups: seq<Group>, tenantOf: map<string, string>, asset: string)
    requires FromAccounts(m, tenantOf)
    requires forall k :: 0 <= k < |groups| ==> FromAccounts(groups[k].merchant, tenantOf)
    ensures Safe(m, groups, asset)
  {
    SafeByName(m, groups, asset);
  }
}
