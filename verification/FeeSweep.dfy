/** Sizing and posting the fee sweep: FeeSweepPlanner (backend/src/chains/treasury) and
    FeeSweepService.sweep (backend/src/services/fee-sweep.service.ts). On-chain balances,
    leases, treasury settings and the fate of every send are inputs. */
module FeeSweep {
  import opened Wrappers
  import opened Pattern
  import opened Ledger
  import opened Journal
  import opened LedgerStore

  // ------------------------------------------------------- a merchant's surplus

  datatype Merchant = Merchant(tenant: string, name: string)

  /** The two LIKE patterns of the claim query. */
  function PoolPattern(m: Merchant): string { "pool_addr:%:" + m.name }

  function LiabilityPattern(m: Merchant): string { "merchant\\_%:" + m.tenant + ":" + m.name }

  predicate Claimed(m: Merchant, account: string)
  {
    Like(PoolPattern(m), account) || Like(LiabilityPattern(m), account)
  }

  function PoolAssets(j: seq<Entry>, m: Merchant, asset: string): int
  {
    Total(OfPattern(PoolPattern(m), asset), j)
  }

  function Liabilities(j: seq<Entry>, m: Merchant, asset: string): int
  {
    -Total(OfPattern(LiabilityPattern(m), asset), j)
  }

  function Surplus(j: seq<Entry>, m: Merchant, asset: string): int
  {
    PoolAssets(j, m, asset) - Liabilities(j, m, asset)
  }

  /** Every posted account that the query returns has a type. */
  ghost predicate Typed(j: seq<Entry>, m: Merchant, asset: string)
  {
    forall p :: p in Flatten(j) && p.asset == asset && Claimed(m, p.account) ==> AccountTypeOf(p.account).Some?
  }

  // ------------------------------------------------------------ the balance rows

  datatype Row = Row(account: string, amount: int)

  function Accounts(rows: seq<Row>): set<string>
  {
    set i | 0 <= i < |rows| :: rows[i].account
  }

  ghost predicate NoRepeat(rows: seq<Row>)
  {
    forall i, k :: 0 <= i < k < |rows| ==> rows[i].account != rows[k].account
  }

  /** Each row shows its account's balance in ps. */
  ghost predicate Shows(rows: seq<Row>, ps: seq<Posting>, asset: string)
  {
    forall i :: 0 <= i < |rows| ==> rows[i].amount == Sum(OfAccount(rows[i].account, asset), ps)
  }

  /** The rows are exactly the claimed accounts that were ever posted to. */
  ghost predicate Selects(rows: seq<Row>, ps: seq<Posting>, m: Merchant, asset: string)
  {
    && (forall i :: 0 <= i < |rows| ==> Claimed(m, rows[i].account) && Posted(rows[i].account, ps, asset))
    && (forall k :: 0 <= k < |ps| && ps[k].asset == asset && Claimed(m, ps[k].account) ==>
      ps[k].account in Accounts(rows))
  }

  ghost predicate Posted(account: string, ps: seq<Posting>, asset: string)
  {
    exists k :: 0 <= k < |ps| && ps[k].asset == asset && ps[k].account == account
  }

  /** `sweepBalances.forClaim`: the balance table's rows that match either pattern. */
  method ForClaim(store: MemoryLedgerStore, m: Merchant, asset: string) returns (rows: seq<Row>)
    requires store.Valid()
    ensures NoRepeat(rows) && Shows(rows, store.postings, asset) && Selects(rows, store.postings, m, asset)
  {
    var ps := store.postings;
    rows := [];
    var i := 0;
    while i < |ps|
      invariant 0 <= i <= |ps| && Collected(rows, ps, i, m, asset)
    {
      var account := ps[i].account;
      if ps[i].asset == asset && Claimed(m, account) && account !in Accounts(rows) {
        var net := store.Balance(account, asset);
        TotalIsSum(OfAccount(account, asset), store.journal);
        RowAdded(rows, ps, i, m, asset, net);
        rows := rows + [Row(account, net)];
      } else {
        RowNotNeeded(rows, ps, i, m, asset);
      }
      i := i + 1;
    }
    assert ps[..i] == ps;
  }

  /** The rows after i postings. */
  ghost predicate Collected(rows: seq<Row>, ps: seq<Posting>, i: nat, m: Merchant, asset: string)
    requires i <= |ps|
  {
    NoRepeat(rows) && Shows(rows, ps, asset) && Selects(rows, ps[..i], m, asset)
  }

  lemma {:induction false} RowAdded(rows: seq<Row>, ps: seq<Posting>, i: nat, m: Merchant, asset: string, net: int)
    requires i < |ps| && Collected(rows, ps, i, m, asset)
    requires ps[i].asset == asset && Claimed(m, ps[i].account) && ps[i].account !in Accounts(rows)
    requires net == Sum(OfAccount(ps[i].account, asset), ps)
    ensures Collected(rows + [Row(ps[i].account, net)], ps, i + 1, m, asset)
  {
    var more := rows + [Row(ps[i].account, net)];
    forall k | 0 <= k < |rows| ensures more[k].account != ps[i].account {
      assert rows[k].account in Accounts(rows);
    }
    AccountsGrow(rows, more[|rows|]);
    PostedGrows(rows, ps, i, asset);
    assert ps[..i + 1][i] == ps[i];
  }

  lemma {:induction false} RowNotNeeded(rows: seq<Row>, ps: seq<Posting>, i: nat, m: Merchant, asset: string)
    requires i < |ps| && Collected(rows, ps, i, m, asset)
    requires ps[i].asset == asset && Claimed(m, ps[i].account) ==> ps[i].account in Accounts(rows)
    ensures Collected(rows, ps, i + 1, m, asset)
  {
    PostedGrows(rows, ps, i, asset);
    assert forall k :: 0 <= k < i ==> ps[..i + 1][k] == ps[..i][k];
  }

  lemma {:induction false} AccountsGrow(rows: seq<Row>, r: Row)
    ensures Accounts(rows + [r]) == Accounts(rows) + {r.account}
  {
    var more := rows + [r];
    assert forall k :: 0 <= k < |rows| ==> more[k] == rows[k];
    assert more[|rows|] == r;
  }

  lemma {:induction false} PostedGrows(rows: seq<Row>, ps: seq<Posting>, i: nat, asset: string)
    requires i < |ps|
    requires forall k :: 0 <= k < |rows| ==> Posted(rows[k].account, ps[..i], asset)
    ensures forall k :: 0 <= k < |rows| ==> Posted(rows[k].account, ps[..i + 1], asset)
  {
    forall k | 0 <= k < |rows| ensures Posted(rows[k].account, ps[..i + 1], asset) {
      var w :| 0 <= w < i && ps[..i][w].asset == asset && ps[..i][w].account == rows[k].account;
      assert ps[..i + 1][w] == ps[..i][w];
    }
  }

  // ---------------------------------------------- rows add up to the surplus

  function RowNet(rows: seq<Row>): int
  {
    if rows == [] then 0 else RowNet(rows[..|rows| - 1]) + rows[|rows| - 1].amount
  }

  /** The rows' balances after one more posting. */
  function Updated(rows: seq<Row>, p: Posting, asset: string): seq<Row>
  {
    seq(|rows|, i requires 0 <= i < |rows| =>
      if p.asset == asset && rows[i].account == p.account then rows[i].(amount := rows[i].amount + Signed(p))
        else rows[i])
  }

  lemma {:induction false} UpdatedNet(rows: seq<Row>, p: Posting, asset: string)
    requires NoRepeat(rows)
    ensures RowNet(Updated(rows, p, asset))
      == RowNet(rows) + if p.asset == asset && p.account in Accounts(rows) then Signed(p) else 0
  {
    if rows != [] {
      var k := |rows| - 1;
      UpdatedNet(rows[..k], p, asset);
      assert Updated(rows, p, asset)[..k] == Updated(rows[..k], p, asset);
      AccountsGrow(rows[..k], rows[k]);
      assert rows == rows[..k] + [rows[k]];
      forall i | 0 <= i < k ensures rows[..k][i].account != rows[k].account { }
    }
  }

  function Zeroed(rows: seq<Row>): seq<Row>
  {
    seq(|rows|, i requires 0 <= i < |rows| => rows[i].(amount := 0))
  }

  lemma {:induction false} ZeroedNet(rows: seq<Row>)
    ensures RowNet(Zeroed(rows)) == 0
  {
    if rows != [] {
      ZeroedNet(rows[..|rows| - 1]);
      assert Zeroed(rows)[..|rows| - 1] == Zeroed(rows[..|rows| - 1]);
    }
  }

  /** The same accounts with their balances in ps. */
  function Balances(rows: seq<Row>, ps: seq<Posting>, asset: string): seq<Row>
  {
    seq(|rows|, i requires 0 <= i < |rows| => rows[i].(amount := Sum(OfAccount(rows[i].account, asset), ps)))
  }

  /** No account matches both patterns: they differ in their first letter. */
  lemma {:induction false} PatternsApart(m: Merchant, account: string)
    ensures !(Like(PoolPattern(m), account) && Like(LiabilityPattern(m), account))
  {
    var p, l := PoolPattern(m), LiabilityPattern(m);
    assert p[0] == 'p' && l[0] == 'm';
    if Like(p, account) { LikeFirst(p, account); }
    if Like(l, account) { LikeFirst(l, account); }
  }

  /** Rows that hold every claimed account of ps add up to assets less liabilities. */
  lemma {:induction false} RowsAddUp(rows: seq<Row>, ps: seq<Posting>, m: Merchant, asset: string)
    requires NoRepeat(rows)
    requires forall i :: 0 <= i < |rows| ==> Claimed(m, rows[i].account)
    requires forall k :: 0 <= k < |ps| && ps[k].asset == asset && Claimed(m, ps[k].account) ==>
      ps[k].account in Accounts(rows)
    ensures RowNet(Balances(rows, ps, asset))
      == Sum(OfPattern(PoolPattern(m), asset), ps) + Sum(OfPattern(LiabilityPattern(m), asset), ps)
    decreases |ps|
  {
    if ps == [] {
      ZeroedNet(rows);
      assert Balances(rows, ps, asset) == Zeroed(rows);
    } else {
      var k := |ps| - 1;
      var before := Balances(rows, ps[..k], asset);
      RowsAddUp(rows, ps[..k], m, asset);
      assert Balances(rows, ps, asset) == Updated(before, ps[k], asset);
      assert NoRepeat(before);
      UpdatedNet(before, ps[k], asset);
      SameAccounts(rows, before);
      PatternsApart(m, ps[k].account);
      OnlyClaimed(rows, m, ps[k].account);
    }
  }

  lemma {:induction false} SameAccounts(rows: seq<Row>, others: seq<Row>)
    requires |rows| == |others| && forall i :: 0 <= i < |rows| ==> rows[i].account == others[i].account
    ensures Accounts(rows) == Accounts(others)
  {
    assert forall i :: 0 <= i < |rows| ==> rows[i].account in Accounts(others) && others[i].account in Accounts(rows);
  }

  lemma {:induction false} OnlyClaimed(rows: seq<Row>, m: Merchant, account: string)
    requires forall i :: 0 <= i < |rows| ==> Claimed(m, rows[i].account)
    ensures account in Accounts(rows) ==> Claimed(m, account)
  {
  }

  // -------------------------------------------------------- types of the claimed

  lemma {:induction false} PrefixKept(key: string, p: string)
    requires p <= key && ':' !in p
    ensures p <= PrefixOf(key)
  {
    if p != "" {
      assert key[0] == p[0] && key[0] != ':';
      assert p == [p[0]] + p[1..];
      PrefixKept(key[1..], p[1..]);
    }
  }

  lemma {:induction false} LiabilityType(m: Merchant, account: string)
    requires Like(LiabilityPattern(m), account)
    ensures AccountTypeOf(account) == Some(Liability) && !StartsWith(account, "pool_addr:")
  {
    var tail := "%:" + m.tenant + ":" + m.name;
    assert LiabilityPattern(m) == "merchant" + ("\\_" + tail);
    LikeHead("merchant", "\\_" + tail, account);
    var rest := account[8..];
    assert ("\\_" + tail)[0] == '\\' && ("\\_" + tail)[1] == '_';
    assert rest != "" && rest[0] == '_';
    assert "merchant_" <= account by { assert account[..9] == "merchant" + [rest[0]]; }
    PrefixKept(account, "merchant_");
    assert account[0] == 'm';
  }

  /** A claimed pool account is either a real pool account or has no type at all: the
      underscore of the pattern also stands for any other letter. */
  lemma {:induction false} PoolType(m: Merchant, account: string)
    requires Like(PoolPattern(m), account)
    ensures AccountTypeOf(account) == if StartsWith(account, "pool_addr:") then Some(Asset) else None
  {
    var tail := "addr:" + ("%:" + m.name);
    assert PoolPattern(m) == "pool" + ("_" + tail);
    LikeHead("pool", "_" + tail, account);
    var rest := account[4..];
    assert ("_" + tail)[1..] == tail && rest != "";
    LikeHead("addr:", "%:" + m.name, rest[1..]);
    assert account == "pool" + [rest[0]] + "addr:" + rest[6..];
    PoolLikeType(rest[0], rest[6..]);
  }

  lemma {:induction false} PoolLikeType(c: char, rest: string)
    ensures var account := "pool" + [c] + "addr:" + rest;
      && (StartsWith(account, "pool_addr:") <==> c == '_')
      && AccountTypeOf(account) == if c == '_' then Some(Asset) else None
  {
    var account := "pool" + [c] + "addr:" + rest;
    assert account[4] == c;
    if c == ':' {
      PrefixOfNamed("pool", "addr:" + rest);
      assert account == "pool" + ":" + ("addr:" + rest);
    } else {
      var p := "pool" + [c] + "addr";
      PrefixOfNamed(p, rest);
      assert account == p + ":" + rest;
      assert p[4] == c && p[8] == 'r' && p[0] == 'p';
      if c == '_' { assert p == "pool_addr"; assert account[..10] == "pool_addr:"; TypesOfPrefixes(); }
    }
  }

  // -------------------------------------------------------------------- the claim

  function AtLeastZero(x: int): int { if x > 0 then x else 0 }

  /** `claim`: the merchant's surplus, never below zero; None is the exception for an
      account of no type. */
  method Claim(store: MemoryLedgerStore, m: Merchant, asset: string) returns (r: Option<int>)
    requires store.Valid()
    ensures r.Some? <==> Typed(store.journal, m, asset)
    ensures r.Some? ==> r.value == AtLeastZero(Surplus(store.journal, m, asset))
  {
    var rows := ForClaim(store, m, asset);
    var poolAssets, liabilities, i := 0, 0, 0;
    while i < |rows|
      invariant 0 <= i <= |rows|
      invariant poolAssets - liabilities == RowNet(rows[..i])
      invariant TypedUpTo(rows, i)
    {
      var row := rows[i];
      ClaimedMagnitude(m, row.account, row.amount);
      var magnitude := NormalBalance(row.account, row.amount);
      if magnitude.None? {
        UntypedRow(store.journal, rows, i, m, asset);
        return None;
      }
      assert rows[..i + 1][..i] == rows[..i];
      if StartsWith(row.account, "pool_addr:") {
        poolAssets := poolAssets + magnitude.value;
      } else {
        liabilities := liabilities + magnitude.value;
      }
      i := i + 1;
    }
    assert rows[..i] == rows;
    AllTyped(store.journal, rows, m, asset);
    SurplusOfRows(store.journal, rows, m, asset);
    var surplus := poolAssets - liabilities;
    return Some(if surplus > 0 then surplus else 0);
  }

  ghost predicate TypedUpTo(rows: seq<Row>, n: nat)
    requires n <= |rows|
  {
    forall k :: 0 <= k < n ==> AccountTypeOf(rows[k].account).Some?
  }

  /** A claimed account counts with its sign when it is a pool account and against it
      otherwise, unless it has no type. */
  lemma {:induction false} ClaimedMagnitude(m: Merchant, account: string, amount: int)
    requires Claimed(m, account)
    ensures var magnitude := NormalBalance(account, amount);
      && (magnitude.Some? <==> AccountTypeOf(account).Some?)
      && (magnitude.Some? ==> magnitude.value == if StartsWith(account, "pool_addr:") then amount else -amount)
  {
    if Like(PoolPattern(m), account) { PoolType(m, account); } else { LiabilityType(m, account); }
  }

  lemma {:induction false} UntypedRow(j: seq<Entry>, rows: seq<Row>, i: nat, m: Merchant, asset: string)
    requires Selects(rows, Flatten(j), m, asset) && i < |rows| && AccountTypeOf(rows[i].account).None?
    ensures !Typed(j, m, asset)
  {
    var ps := Flatten(j);
    var k :| 0 <= k < |ps| && ps[k].asset == asset && ps[k].account == rows[i].account;
    assert ps[k] in Flatten(j);
  }

  lemma {:induction false} AllTyped(j: seq<Entry>, rows: seq<Row>, m: Merchant, asset: string)
    requires Selects(rows, Flatten(j), m, asset)
    requires TypedUpTo(rows, |rows|)
    ensures Typed(j, m, asset)
  {
  }

  lemma {:induction false} SurplusOfRows(j: seq<Entry>, rows: seq<Row>, m: Merchant, asset: string)
    requires NoRepeat(rows) && Shows(rows, Flatten(j), asset) && Selects(rows, Flatten(j), m, asset)
    ensures RowNet(rows) == Surplus(j, m, asset)
  {
    RowsAddUp(rows, Flatten(j), m, asset);
    assert Balances(rows, Flatten(j), asset) == rows;
    TotalIsSum(OfPattern(PoolPattern(m), asset), j);
    TotalIsSum(OfPattern(LiabilityPattern(m), asset), j);
  }

  // --------------------------------------------------------------------- the plan

  /** A pool address of the merchant on one chain and what the chain says it holds. */
  datatype Holding = Holding(address: string, derivationIndex: nat, onChain: int)

  datatype Leg = Leg(address: string, derivationIndex: nat, amount: int)

  function Free(h: Holding, reserved: map<string, int>): int
  {
    h.onChain - if h.address in reserved then reserved[h.address] else 0
  }

  function Min(a: int, b: int): int { if a < b then a else b }

  /** What the planner would take from an address with `remaining` of the claim to go. */
  function Take(h: Holding, reserved: map<string, int>, remaining: int): int { Min(Free(h, reserved), remaining) }

  predicate Usable(h: Holding, reserved: map<string, int>, dust: int, remaining: int)
  {
    Free(h, reserved) > 0 && Take(h, reserved, remaining) >= dust
  }

  /** The legs for a claim, address by address. */
  function PlanLegs(hs: seq<Holding>, reserved: map<string, int>, dust: int, remaining: int): seq<Leg>
  {
    if hs == [] || remaining <= 0 then []
    else if !Usable(hs[0], reserved, dust, remaining) then PlanLegs(hs[1..], reserved, dust, remaining)
    else
      var take := Take(hs[0], reserved, remaining);
      [Leg(hs[0].address, hs[0].derivationIndex, take)] + PlanLegs(hs[1..], reserved, dust, remaining - take)
  }

  function LegSum(legs: seq<Leg>): int
  {
    if legs == [] then 0 else legs[0].amount + LegSum(legs[1..])
  }

  datatype FeePlan = FeePlan(claim: int, legs: seq<Leg>, total: int, skippedDust: nat)

  /** `plan`. */
  method Plan(claim: int, hs: seq<Holding>, reserved: map<string, int>, dust: int) returns (plan: FeePlan)
    ensures plan.claim == claim && plan.legs == PlanLegs(hs, reserved, dust, claim)
    ensures plan.total == LegSum(plan.legs)
    ensures claim > 0 && plan.legs == [] ==> (plan.skippedDust > 0 <==> Funded(hs, reserved))
  {
    if claim <= 0 {
      return FeePlan(claim, [], 0, 0);
    }
    var legs: seq<Leg> := [];
    var remaining, skippedDust, i := claim, 0, 0;
    assert hs[0..] == hs;
    while i < |hs| && remaining > 0
      invariant 0 <= i <= |hs| && remaining >= 0
      invariant Planned(legs, hs, i, reserved, dust, remaining, claim)
      invariant LegSum(legs) == claim - remaining
      invariant legs == [] ==> remaining == claim && (skippedDust > 0 <==> Funded(hs[..i], reserved))
      decreases |hs| - i
    {
      var h := hs[i];
      PlanStep(legs, hs, reserved, dust, remaining, i, claim);
      var spoken := if h.address in reserved then reserved[h.address] else 0;
      var free := h.onChain - spoken;
      if free > 0 {
        var take := if free < remaining then free else remaining;
        if take < dust {
          skippedDust := skippedDust + 1;
        } else {
          LegSumSnoc(legs, Leg(h.address, h.derivationIndex, take));
          legs := legs + [Leg(h.address, h.derivationIndex, take)];
          remaining := remaining - take;
        }
      }
      i := i + 1;
    }
    assert legs == [] ==> hs[..i] == hs;
    return FeePlan(claim, legs, LegSum(legs), skippedDust);
  }

  /** Some address holds more than is reserved there. */
  ghost predicate Funded(hs: seq<Holding>, reserved: map<string, int>)
  {
    exists h :: h in hs && Free(h, reserved) > 0
  }

  /** The legs chosen so far and those still to come are the plan. */
  ghost predicate Planned(legs: seq<Leg>, hs: seq<Holding>, i: nat, reserved: map<string, int>, dust: int,
                          remaining: int, claim: int)
    requires i <= |hs|
  {
    legs + PlanLegs(hs[i..], reserved, dust, remaining) == PlanLegs(hs, reserved, dust, claim)
  }

  lemma {:induction false} PlanStep(legs: seq<Leg>, hs: seq<Holding>, reserved: map<string, int>, dust: int,
                                    remaining: int, i: nat, claim: int)
    requires i < |hs| && remaining > 0 && Planned(legs, hs, i, reserved, dust, remaining, claim)
    ensures var take := Take(hs[i], reserved, remaining);
      if Usable(hs[i], reserved, dust, remaining)
      then Planned(legs + [Leg(hs[i].address, hs[i].derivationIndex, take)], hs, i + 1, reserved, dust,
        remaining - take, claim)
      else Planned(legs, hs, i + 1, reserved, dust, remaining, claim)
    ensures Funded(hs[..i + 1], reserved) <==> Funded(hs[..i], reserved) || Free(hs[i], reserved) > 0
  {
    assert hs[i..][0] == hs[i] && hs[i..][1..] == hs[i + 1..];
    assert hs[..i + 1] == hs[..i] + [hs[i]];
    var leg := Leg(hs[i].address, hs[i].derivationIndex, Take(hs[i], reserved, remaining));
    var rest := PlanLegs(hs[i + 1..], reserved, dust, remaining - leg.amount);
    assert legs + ([leg] + rest) == legs + [leg] + rest;
  }

  lemma {:induction false} LegSumSnoc(legs: seq<Leg>, l: Leg)
    ensures LegSum(legs + [l]) == LegSum(legs) + l.amount
  {
    if legs == [] {
      assert legs + [l] == [l] && [l][1..] == [];
    } else {
      LegSumSnoc(legs[1..], l);
      assert (legs + [l])[1..] == legs[1..] + [l];
    }
  }

  /** A leg takes something, not dust, from an address of the merchant, and no more than is
      free there. */
  ghost predicate LegWithin(l: Leg, hs: seq<Holding>, reserved: map<string, int>, dust: int)
  {
    l.amount > 0 && l.amount >= dust
    && exists h :: h in hs && LegFrom(l, h, reserved)
  }

  predicate LegFrom(l: Leg, h: Holding, reserved: map<string, int>)
  {
    h.address == l.address && h.derivationIndex == l.derivationIndex && l.amount <= Free(h, reserved)
  }

  lemma {:induction false} PlanWithin(hs: seq<Holding>, reserved: map<string, int>, dust: int, claim: int)
    ensures var legs := PlanLegs(hs, reserved, dust, claim);
      && (forall l :: l in legs ==> LegWithin(l, hs, reserved, dust))
      && 0 <= LegSum(legs) <= AtLeastZero(claim)
  {
    if hs != [] && claim > 0 {
      var h, rest := hs[0], hs[1..];
      var used := Usable(h, reserved, dust, claim);
      var left := if used then claim - Take(h, reserved, claim) else claim;
      PlanWithin(rest, reserved, dust, left);
      var tail, legs := PlanLegs(rest, reserved, dust, left), PlanLegs(hs, reserved, dust, claim);
      assert used ==> legs[1..] == tail;
      forall l | l in legs ensures LegWithin(l, hs, reserved, dust) {
        if l in tail {
          assert LegWithin(l, rest, reserved, dust);
          var k :| k in rest && LegFrom(l, k, reserved);
          assert k in hs;
        } else {
          assert h in hs;
        }
      }
    }
  }

  ghost predicate DistinctAddresses(hs: seq<Holding>)
  {
    forall i, k :: 0 <= i < k < |hs| ==> hs[i].address != hs[k].address
  }

  /** No address is drawn on twice. */
  lemma {:induction false} PlanDistinct(hs: seq<Holding>, reserved: map<string, int>, dust: int, claim: int)
    requires DistinctAddresses(hs)
    ensures var legs := PlanLegs(hs, reserved, dust, claim);
      forall i, k :: 0 <= i < k < |legs| ==> legs[i].address != legs[k].address
  {
    if hs != [] && claim > 0 {
      var left := if Usable(hs[0], reserved, dust, claim) then claim - Take(hs[0], reserved, claim) else claim;
      PlanDistinct(hs[1..], reserved, dust, left);
      PlanWithin(hs[1..], reserved, dust, left);
      var tail := PlanLegs(hs[1..], reserved, dust, left);
      forall k | 0 <= k < |tail| ensures tail[k].address != hs[0].address {
        assert LegWithin(tail[k], hs[1..], reserved, dust);
      }
    }
  }

  /** What the addresses hold above dust. */
  function Reachable(hs: seq<Holding>, reserved: map<string, int>, dust: int): int
  {
    if hs == [] then 0
    else (if Free(hs[0], reserved) > 0 && Free(hs[0], reserved) >= dust then Free(hs[0], reserved) else 0)
         + Reachable(hs[1..], reserved, dust)
  }

  lemma {:induction false} ReachableNat(hs: seq<Holding>, reserved: map<string, int>, dust: int)
    ensures Reachable(hs, reserved, dust) >= 0
  {
    if hs != [] { ReachableNat(hs[1..], reserved, dust); }
  }

  /** The plan is as large as it can be: what it leaves of the claim is below dust, or there
      was nothing more above dust to take. */
  lemma {:induction false} PlanComplete(hs: seq<Holding>, reserved: map<string, int>, dust: int, claim: int)
    requires claim >= 0
    ensures var total := LegSum(PlanLegs(hs, reserved, dust, claim));
      && total <= Min(claim, Reachable(hs, reserved, dust))
      && (total < Min(claim, Reachable(hs, reserved, dust)) ==> claim - total < dust)
  {
    ReachableNat(hs, reserved, dust);
    if hs != [] && claim > 0 {
      var used := Usable(hs[0], reserved, dust, claim);
      var left := if used then claim - Take(hs[0], reserved, claim) else claim;
      ReachableNat(hs[1..], reserved, dust);
      PlanComplete(hs[1..], reserved, dust, left);
      assert used ==> PlanLegs(hs, reserved, dust, claim)[1..] == PlanLegs(hs[1..], reserved, dust, left);
    }
  }
}
