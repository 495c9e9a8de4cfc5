/** Fee sweeps that overlap: the console's sweep (backend/src/services/fee-sweep.service.ts)
    and the sweep after every payout (`sweepFee` in backend/src/services/payout.service.ts)
    first plan and then post leg by leg, with anything in between. The claim is summed over
    all chains, the lease is taken per chain (backend/src/attribution/gather-lease.ts). */
module FeeSweepOverlap {
  import opened Wrappers
  import opened Pattern
  import opened Hex
  import opened Ledger
  import opened Journal
  import opened LedgerRuns
  import opened FeeSweep
  import opened FeeSweepRun
  import opened FeeSweepSafety
  import opened FeeClaim

  // ---------------------------------------------------------------------- machine

  datatype Source = Console | AfterPayout(payout: string)

  /** A sweep of one group: the legs it planned, the next one to send, whether its call is
      still running and whether its lease is still held. */
  datatype Sweep = Sweep(group: Group, source: Source, asset: string, legs: seq<Leg>, next: nat,
                         active: bool, leased: bool)

  datatype State = State(journal: seq<Entry>, sweeps: seq<Sweep>)

  /** Expire is a lease that runs out under a sweep that is still at work; Other is any entry
      that is not a sweep's. */
  datatype Step =
    | PlanSweep(group: Group, source: Source, asset: string, holdings: seq<Holding>, reserved: map<string, int>,
                dust: int)
    | PostNext(id: nat, sent: bool)
    | Finish(id: nat)
    | Expire(id: nat)
    | Other(entry: Entry)

  predicate Leased(sweeps: seq<Sweep>, g: Group)
  {
    exists i :: 0 <= i < |sweeps| && sweeps[i].leased && SameLease(sweeps[i].group, g)
  }

  function UpperCase(s: string): string
  {
    seq(|s|, i requires 0 <= i < |s| => Upper(s[i]))
  }

  /** One lease serves a merchant on one chain, however the chain is capitalised. */
  predicate SameLease(a: Group, b: Group) { a.merchant == b.merchant && UpperCase(a.chain) == UpperCase(b.chain) }

  /** The legs of a plan made now. */
  function LegsNow(j: seq<Entry>, p: Step): seq<Leg>
    requires p.PlanSweep?
  {
    PlanLegs(p.holdings, p.reserved, p.dust, AtLeastZero(Surplus(j, p.group.merchant, p.asset)))
  }

  function NewSweep(j: seq<Entry>, p: Step): Sweep
    requires p.PlanSweep?
  {
    Sweep(p.group, p.source, p.asset, LegsNow(j, p), 0, true, true)
  }

  function KeyOf(w: Sweep, i: nat): EntryKey
    requires i < |w.legs|
  {
    match w.source
    case Console => SweepKey(w.group.chain, w.legs[i].address, w.asset, w.legs[i].amount)
    case AfterPayout(payout) => FeeKey(payout, i)
  }

  function EntryOf(w: Sweep, i: nat): Result<Entry, LedgerError>
    requires i < |w.legs|
  {
    OutOfPool(KeyOf(w, i), w.asset, w.legs[i].amount, Treasury(w.group.chain),
              PoolAddr(w.group.chain, w.group.merchant.name), None)
  }

  /** There is a leg to send. */
  predicate Pending(w: Sweep) { w.active && w.next < |w.legs| }

  function Do(s: State, step: Step): State
  {
    match step
    case PlanSweep(g, _, _, _, _, _) =>
      if Leased(s.sweeps, g) then s else s.(sweeps := s.sweeps + [NewSweep(s.journal, step)])
    case PostNext(id, sent) =>
      if id >= |s.sweeps| || !Pending(s.sweeps[id]) then s
      else
        var w := s.sweeps[id];
        var e := EntryOf(w, w.next);
        State(if sent && e.Success? then Recorded(s.journal, e.value) else s.journal,
              s.sweeps[id := w.(next := w.next + 1)])
    case Finish(id) =>
      if id >= |s.sweeps| then s else s.(sweeps := s.sweeps[id := s.sweeps[id].(active := false, leased := false)])
    case Expire(id) =>
      if id >= |s.sweeps| then s else s.(sweeps := s.sweeps[id := s.sweeps[id].(leased := false)])
    case Other(e) => s.(journal := Recorded(s.journal, e))
  }

  function RunSteps(s: State, steps: seq<Step>): State
  {
    if steps == [] then s else Do(RunSteps(s, steps[..|steps| - 1]), steps[|steps| - 1])
  }

  ghost predicate Proper(w: Sweep)
  {
    w.next <= |w.legs| && forall l :: l in w.legs ==> l.amount > 0
  }

  ghost predicate Valid(s: State)
  {
    forall i :: 0 <= i < |s.sweeps| ==> Proper(s.sweeps[i])
  }

  lemma {:induction false} DoValid(s: State, step: Step)
    requires Valid(s)
    ensures Valid(Do(s, step))
  {
    if step.PlanSweep? { PlannedProper(s.journal, step); }
  }

  lemma {:induction false} PlannedProper(j: seq<Entry>, p: Step)
    requires p.PlanSweep?
    ensures Proper(NewSweep(j, p))
    ensures 0 <= LegSum(LegsNow(j, p)) <= AtLeastZero(Surplus(j, p.group.merchant, p.asset))
  {
    PlanWithin(p.holdings, p.reserved, p.dust, AtLeastZero(Surplus(j, p.group.merchant, p.asset)));
    forall l | l in LegsNow(j, p) ensures l.amount > 0 { assert LegWithin(l, p.holdings, p.reserved, p.dust); }
  }

  // ---------------------------------------------------------------- what is still open

  /** The sweep draws on a pool account that counts as the merchant's. */
  predicate Counts(w: Sweep, m: Merchant, asset: string)
  {
    w.active && w.asset == asset && Like(PoolPattern(m), PoolAddr(w.group.chain, w.group.merchant.name))
  }

  /** What a sweep has planned and not yet tried to send. */
  function OpenOf(w: Sweep, m: Merchant, asset: string): int
  {
    if Counts(w, m, asset) && w.next <= |w.legs| then LegSum(w.legs[w.next..]) else 0
  }

  function OpenSum(sweeps: seq<Sweep>, m: Merchant, asset: string): int
  {
    if sweeps == [] then 0
    else OpenSum(sweeps[..|sweeps| - 1], m, asset) + OpenOf(sweeps[|sweeps| - 1], m, asset)
  }

  /** The surplus that no open leg has a call on. */
  function Slack(s: State, m: Merchant, asset: string): int
  {
    Surplus(s.journal, m, asset) - OpenSum(s.sweeps, m, asset)
  }

  /** The surplus covers every open leg. */
  ghost predicate Backed(s: State, m: Merchant, asset: string) { Slack(s, m, asset) >= 0 }

  lemma {:induction false} LegSumNonNegative(legs: seq<Leg>)
    requires forall l :: l in legs ==> l.amount > 0
    ensures LegSum(legs) >= 0 && (LegSum(legs) == 0 ==> legs == [])
  {
    if legs != [] {
      assert legs[0] in legs;
      LegSumNonNegative(legs[1..]);
    }
  }

  lemma {:induction false} OpenNonNegative(w: Sweep, m: Merchant, asset: string)
    requires Proper(w)
    ensures OpenOf(w, m, asset) >= 0
  {
    LegSumNonNegative(w.legs[w.next..]);
  }

  lemma {:induction false} OpenSumNonNegative(sweeps: seq<Sweep>, m: Merchant, asset: string)
    requires forall i :: 0 <= i < |sweeps| ==> Proper(sweeps[i])
    ensures OpenSum(sweeps, m, asset) >= 0
  {
    if sweeps != [] {
      OpenSumNonNegative(sweeps[..|sweeps| - 1], m, asset);
      OpenNonNegative(sweeps[|sweeps| - 1], m, asset);
    }
  }

  lemma {:induction false} OpenSumAppend(sweeps: seq<Sweep>, w: Sweep, m: Merchant, asset: string)
    ensures OpenSum(sweeps + [w], m, asset) == OpenSum(sweeps, m, asset) + OpenOf(w, m, asset)
  {
    assert (sweeps + [w])[..|sweeps|] == sweeps;
  }

  lemma {:induction false} OpenSumUpdate(sweeps: seq<Sweep>, i: nat, w: Sweep, m: Merchant, asset: string)
    requires i < |sweeps|
    ensures OpenSum(sweeps[i := w], m, asset)
      == OpenSum(sweeps, m, asset) - OpenOf(sweeps[i], m, asset) + OpenOf(w, m, asset)
  {
    var n := |sweeps| - 1;
    if i == n {
      assert sweeps[i := w][..n] == sweeps[..n];
    } else {
      OpenSumUpdate(sweeps[..n], i, w, m, asset);
      assert sweeps[i := w][..n] == sweeps[..n][i := w];
    }
  }

  /** The leg that is sent next. */
  lemma {:induction false} NextLeg(w: Sweep, m: Merchant, asset: string)
    requires Proper(w) && Pending(w)
    ensures w.legs[w.next].amount > 0
    ensures OpenOf(w, m, asset)
      == OpenOf(w.(next := w.next + 1), m, asset) + if Counts(w, m, asset) then w.legs[w.next].amount else 0
  {
    assert w.legs[w.next] in w.legs;
    assert w.legs[w.next..][0] == w.legs[w.next] && w.legs[w.next..][1..] == w.legs[w.next + 1..];
  }

  // ------------------------------------------------------------------- step by step

  /** What posting a leg takes out of a merchant's surplus. */
  lemma {:induction false} PostedTakes(j: seq<Entry>, w: Sweep, m: Merchant, asset: string)
    requires Proper(w) && Pending(w)
    ensures EntryOf(w, w.next).Success?
    ensures var e := EntryOf(w, w.next).value;
      Surplus(Recorded(j, e), m, asset)
      == Surplus(j, m, asset) - if e.key !in Keys(j) && Counts(w, m, asset) then w.legs[w.next].amount else 0
  {
    assert w.legs[w.next] in w.legs;
    var e := EntryOf(w, w.next).value;
    AccountsApart(m, w.group.chain, w.group.merchant.name);
    LegSums(OfPattern(PoolPattern(m), asset), j, e);
    LegSums(OfPattern(LiabilityPattern(m), asset), j, e);
  }

  lemma {:induction false} PostSlack(s: State, id: nat, sent: bool, m: Merchant, asset: string)
    requires Valid(s)
    ensures Slack(Do(s, PostNext(id, sent)), m, asset) >= Slack(s, m, asset)
  {
    if id < |s.sweeps| && Pending(s.sweeps[id]) {
      var w := s.sweeps[id];
      assert Proper(w);
      PostedTakes(s.journal, w, m, asset);
      NextLeg(w, m, asset);
      OpenSumUpdate(s.sweeps, id, w.(next := w.next + 1), m, asset);
    }
  }

  lemma {:induction false} FinishSlack(s: State, id: nat, m: Merchant, asset: string)
    requires Valid(s)
    ensures Slack(Do(s, Finish(id)), m, asset) >= Slack(s, m, asset)
  {
    if id < |s.sweeps| {
      var w := s.sweeps[id];
      OpenNonNegative(w, m, asset);
      OpenSumUpdate(s.sweeps, id, w.(active := false, leased := false), m, asset);
    }
  }

  lemma {:induction false} ExpireSlack(s: State, id: nat, m: Merchant, asset: string)
    ensures Slack(Do(s, Expire(id)), m, asset) == Slack(s, m, asset)
  {
    if id < |s.sweeps| { OpenSumUpdate(s.sweeps, id, s.sweeps[id].(leased := false), m, asset); }
  }

  lemma {:induction false} PlanSlack(s: State, p: Step, m: Merchant, asset: string)
    requires p.PlanSweep? && !Leased(s.sweeps, p.group)
    ensures Slack(Do(s, p), m, asset) == Slack(s, m, asset) - OpenOf(NewSweep(s.journal, p), m, asset)
  {
    OpenSumAppend(s.sweeps, NewSweep(s.journal, p), m, asset);
  }

  /** What can be looked up before a step so that it leaves every open leg covered: a plan
      that is accepted must fit into the slack, and so must what another entry takes. */
  ghost predicate Fits(s: State, step: Step, m: Merchant, asset: string)
  {
    match step
    case PlanSweep(g, _, _, _, _, _) =>
      !Leased(s.sweeps, g) ==> OpenOf(NewSweep(s.journal, step), m, asset) <= Slack(s, m, asset)
    case Other(e) => Surplus(s.journal, m, asset) - Surplus(Recorded(s.journal, e), m, asset) <= Slack(s, m, asset)
    case _ => true
  }

  lemma {:induction false} StepBacked(s: State, step: Step, m: Merchant, asset: string)
    requires Valid(s) && Backed(s, m, asset)
    ensures Backed(Do(s, step), m, asset) <==> Fits(s, step, m, asset)
  {
    match step
    case PlanSweep(g, _, _, _, _, _) => if !Leased(s.sweeps, g) { PlanSlack(s, step, m, asset); }
    case PostNext(id, sent) => PostSlack(s, id, sent, m, asset);
    case Finish(id) => FinishSlack(s, id, m, asset);
    case Expire(id) => ExpireSlack(s, id, m, asset);
    case Other(_) =>
  }

  // --------------------------------------------------------------------- whole runs

  ghost predicate BackedAt(s: State, steps: seq<Step>, n: nat, m: Merchant, asset: string)
    requires n <= |steps|
  {
    Backed(RunSteps(s, steps[..n]), m, asset)
  }

  ghost predicate FitsAt(s: State, steps: seq<Step>, n: nat, m: Merchant, asset: string)
    requires n < |steps|
  {
    Fits(RunSteps(s, steps[..n]), steps[n], m, asset)
  }

  lemma {:induction false} RunValid(s: State, steps: seq<Step>)
    requires Valid(s)
    ensures Valid(RunSteps(s, steps))
  {
    if steps != [] {
      RunValid(s, steps[..|steps| - 1]);
      DoValid(RunSteps(s, steps[..|steps| - 1]), steps[|steps| - 1]);
    }
  }

  lemma {:induction false} OneMoreStep(s: State, steps: seq<Step>, n: nat, m: Merchant, asset: string)
    requires Valid(s) && n < |steps| && BackedAt(s, steps, n, m, asset)
    ensures BackedAt(s, steps, n + 1, m, asset) <==> FitsAt(s, steps, n, m, asset)
  {
    assert steps[..n + 1][..n] == steps[..n] && steps[..n + 1][n] == steps[n];
    RunValid(s, steps[..n]);
    StepBacked(RunSteps(s, steps[..n]), steps[n], m, asset);
  }

  lemma {:induction false} FitsSoFar(s: State, steps: seq<Step>, n: nat, m: Merchant, asset: string)
    requires Valid(s) && Backed(s, m, asset) && n <= |steps|
    requires forall k :: 0 <= k < n ==> FitsAt(s, steps, k, m, asset)
    ensures BackedAt(s, steps, n, m, asset)
  {
    if n == 0 {
      assert steps[..0] == [];
    } else {
      FitsSoFar(s, steps, n - 1, m, asset);
      OneMoreStep(s, steps, n - 1, m, asset);
    }
  }

  /** Over every interleaving of sweeps and other entries, the surplus covers all open legs
      throughout if and only if each accepted plan, and each other entry that takes from the
      surplus, fits into the slack at its moment. Posting, finishing and expiring leases are
      always harmless. */
  lemma {:induction false} BackedExactly(s: State, steps: seq<Step>, m: Merchant, asset: string)
    requires Valid(s) && Backed(s, m, asset)
    ensures (forall n :: 0 <= n <= |steps| ==> BackedAt(s, steps, n, m, asset))
      <==> (forall n :: 0 <= n < |steps| ==> FitsAt(s, steps, n, m, asset))
  {
    if forall n :: 0 <= n < |steps| ==> FitsAt(s, steps, n, m, asset) {
      forall n | 0 <= n <= |steps| ensures BackedAt(s, steps, n, m, asset) { FitsSoFar(s, steps, n, m, asset); }
    }
    if forall n :: 0 <= n <= |steps| ==> BackedAt(s, steps, n, m, asset) {
      forall n | 0 <= n < |steps| ensures FitsAt(s, steps, n, m, asset) {
        assert BackedAt(s, steps, n + 1, m, asset);
        OneMoreStep(s, steps, n, m, asset);
      }
    }
  }

  /** Backed means covered: pool assets do not fall below liabilities. */
  lemma {:induction false} BackedIsCovered(s: State, m: Merchant, asset: string)
    requires Valid(s) && Backed(s, m, asset)
    ensures PoolAssets(s.journal, m, asset) >= Liabilities(s.journal, m, asset)
  {
    OpenSumNonNegative(s.sweeps, m, asset);
  }

  // ---------------------------------------------------- when a merchant may be planned

  /** Planning a merchant is harmless whatever the chain holds if and only if none of its
      legs is open. */
  lemma {:induction false} PlanOnlyWhenNoneOpen(s: State, g: Group, source: Source, asset: string)
    requires Valid(s) && Backed(s, g.merchant, asset) && !Leased(s.sweeps, g)
    requires Like(PoolPattern(g.merchant), PoolAddr(g.chain, g.merchant.name))
    ensures (forall holdings, reserved, dust ::
               Backed(Do(s, PlanSweep(g, source, asset, holdings, reserved, dust)), g.merchant, asset))
      <==> OpenSum(s.sweeps, g.merchant, asset) == 0
  {
    var m := g.merchant;
    OpenSumNonNegative(s.sweeps, m, asset);
    if OpenSum(s.sweeps, m, asset) == 0 {
      forall holdings, reserved, dust
        ensures Backed(Do(s, PlanSweep(g, source, asset, holdings, reserved, dust)), m, asset)
      {
        NoneOpenFits(s, PlanSweep(g, source, asset, holdings, reserved, dust), asset);
      }
    } else {
      var surplus := Surplus(s.journal, m, asset);
      var holdings: seq<Holding>, reserved: map<string, int> := [Holding("address", 0, surplus)], map[];
      var p := PlanSweep(g, source, asset, holdings, reserved, 0);
      WholeSurplus(s.journal, p, surplus);
      PlanSlack(s, p, m, asset);
      assert !Backed(Do(s, PlanSweep(g, source, asset, holdings, reserved, 0)), m, asset);
    }
  }

  lemma {:induction false} NoneOpenFits(s: State, p: Step, asset: string)
    requires Valid(s) && p.PlanSweep? && p.asset == asset
    requires Backed(s, p.group.merchant, asset) && OpenSum(s.sweeps, p.group.merchant, asset) == 0
    ensures Fits(s, p, p.group.merchant, asset) && Backed(Do(s, p), p.group.merchant, asset)
  {
    PlannedProper(s.journal, p);
    var w := NewSweep(s.journal, p);
    assert w.legs[0..] == w.legs;
    StepBacked(s, p, p.group.merchant, asset);
  }

  /** One address that holds the whole surplus gives one leg for all of it. */
  lemma {:induction false} WholeSurplus(j: seq<Entry>, p: Step, surplus: int)
    requires p.PlanSweep? && surplus == Surplus(j, p.group.merchant, p.asset) > 0
    requires p.holdings == [Holding("address", 0, surplus)] && p.reserved == map[] && p.dust == 0
    ensures LegsNow(j, p) == [Leg("address", 0, surplus)] && LegSum(LegsNow(j, p)) == surplus
    ensures LegSum(NewSweep(j, p).legs[0..]) == surplus
  {
    var h, legs := p.holdings[0], [Leg("address", 0, surplus)];
    assert p.holdings[1..] == [] && legs[1..] == [] && legs[0..] == legs;
    assert Free(h, p.reserved) == surplus == Take(h, p.reserved, surplus) && Usable(h, p.reserved, 0, surplus);
    assert PlanLegs(p.holdings, p.reserved, 0, surplus) == legs + PlanLegs([], p.reserved, 0, 0);
    assert LegsNow(j, p) == legs;
  }

  /** Every accepted plan of the merchant is made when none of its legs is open. */
  ghost predicate Serial(s: State, steps: seq<Step>, m: Merchant, asset: string)
  {
    forall n :: 0 <= n < |steps| && steps[n].PlanSweep? && steps[n].asset == asset ==>
      var t := RunSteps(s, steps[..n]);
      Leased(t.sweeps, steps[n].group) || Elsewhere(steps[n].group, m)
      || (SameClaims(m, steps[n].group.merchant) && OpenSum(t.sweeps, m, asset) == 0)
  }

  /** The group's pool account does not count as the merchant's. */
  predicate Elsewhere(g: Group, m: Merchant) { !Like(PoolPattern(m), PoolAddr(g.chain, g.merchant.name)) }

  /** What other entries take from the merchant always fits into the slack. */
  ghost predicate OthersFit(s: State, steps: seq<Step>, m: Merchant, asset: string)
  {
    forall n :: 0 <= n < |steps| && steps[n].Other? ==> FitsAt(s, steps, n, m, asset)
  }

  lemma {:induction false} SerialFits(s: State, steps: seq<Step>, n: nat, m: Merchant, asset: string)
    requires Valid(s) && n < |steps| && BackedAt(s, steps, n, m, asset)
    requires Serial(s, steps, m, asset) && OthersFit(s, steps, m, asset)
    ensures FitsAt(s, steps, n, m, asset)
  {
    var t, p := RunSteps(s, steps[..n]), steps[n];
    if p.PlanSweep? && !Leased(t.sweeps, p.group) {
      RunValid(s, steps[..n]);
      PlannedProper(t.journal, p);
      var w := NewSweep(t.journal, p);
      assert w.legs[0..] == w.legs;
      if Counts(w, m, asset) { SameClaimsSameSurplus(t.journal, m, p.group.merchant, asset); }
    }
  }

  /** Sweeps that plan a merchant only when none of its legs is open keep it covered, in every
      interleaving with posting, crashes, expiring leases and entries that fit. */
  lemma {:induction false} SerialIsCovered(s: State, steps: seq<Step>, m: Merchant, asset: string)
    requires Valid(s) && Backed(s, m, asset) && Serial(s, steps, m, asset) && OthersFit(s, steps, m, asset)
    ensures forall n :: 0 <= n <= |steps| ==> BackedAt(s, steps, n, m, asset)
    ensures PoolAssets(RunSteps(s, steps).journal, m, asset) >= Liabilities(RunSteps(s, steps).journal, m, asset)
  {
    SerialSoFar(s, steps, |steps|, m, asset);
    assert steps[..|steps|] == steps && BackedAt(s, steps, |steps|, m, asset);
    RunValid(s, steps);
    BackedIsCovered(RunSteps(s, steps), m, asset);
  }

  lemma {:induction false} SerialSoFar(s: State, steps: seq<Step>, k: nat, m: Merchant, asset: string)
    requires Valid(s) && Backed(s, m, asset) && Serial(s, steps, m, asset) && OthersFit(s, steps, m, asset)
    requires k <= |steps|
    ensures forall n :: 0 <= n <= k ==> BackedAt(s, steps, n, m, asset)
  {
    if k == 0 {
      assert steps[..0] == [];
    } else {
      SerialSoFar(s, steps, k - 1, m, asset);
      SerialStep(s, steps, k - 1, m, asset);
    }
  }

  lemma {:induction false} SerialStep(s: State, steps: seq<Step>, n: nat, m: Merchant, asset: string)
    requires Valid(s) && n < |steps| && BackedAt(s, steps, n, m, asset)
    requires Serial(s, steps, m, asset) && OthersFit(s, steps, m, asset)
    ensures BackedAt(s, steps, n + 1, m, asset)
  {
    SerialFits(s, steps, n, m, asset);
    OneMoreStep(s, steps, n, m, asset);
  }

  predicate PlansFor(step: Step, m: Merchant, asset: string)
  {
    step.PlanSweep? && step.group.merchant == m && step.asset == asset
  }

  /** In the engine, where a pool account counts as a merchant's only if it is its own, the
      condition is just about the merchant's own plans. */
  lemma {:induction false} EngineSerial(s: State, steps: seq<Step>, m: Merchant, tenantOf: map<string, string>,
                                        asset: string)
    requires FromAccounts(m, tenantOf)
    requires forall n :: 0 <= n < |steps| && steps[n].PlanSweep? ==> FromAccounts(steps[n].group.merchant, tenantOf)
    requires forall n :: 0 <= n < |steps| && PlansFor(steps[n], m, asset) ==>
      var t := RunSteps(s, steps[..n]);
      Leased(t.sweeps, steps[n].group) || OpenSum(t.sweeps, m, asset) == 0
    ensures Serial(s, steps, m, asset)
  {
    forall n | 0 <= n < |steps| && steps[n].PlanSweep?
      ensures steps[n].group.merchant == m || Elsewhere(steps[n].group, m)
    {
      PoolByName(m, steps[n].group.chain, steps[n].group.merchant.name);
    }
  }

  // ----------------------------------------------------- what is not backed can go short

  /** The entries of the open legs that count would be new, each under a key of its own. */
  ghost predicate Fresh(s: State, m: Merchant, asset: string)
  {
    && (forall i: nat, k: nat :: IsOpen(s, i, k, m, asset) ==> KeyOf(s.sweeps[i], k) !in Keys(s.journal))
    && (forall i: nat, k: nat, j: nat, l: nat :: IsOpen(s, i, k, m, asset) && IsOpen(s, j, l, m, asset) ==>
          KeyOf(s.sweeps[i], k) != KeyOf(s.sweeps[j], l) || (i == j && k == l))
  }

  /** Leg k of sweep i counts as the merchant's and is still to be sent. */
  ghost predicate IsOpen(s: State, i: nat, k: nat, m: Merchant, asset: string)
  {
    i < |s.sweeps| && Counts(s.sweeps[i], m, asset) && s.sweeps[i].next <= k < |s.sweeps[i].legs|
  }

  lemma {:induction false} SomeOpen(sweeps: seq<Sweep>, m: Merchant, asset: string) returns (i: nat)
    requires OpenSum(sweeps, m, asset) > 0
    ensures i < |sweeps| && Counts(sweeps[i], m, asset) && Pending(sweeps[i])
  {
    var n := |sweeps| - 1;
    if OpenOf(sweeps[n], m, asset) > 0 {
      i := n;
    } else {
      i := SomeOpen(sweeps[..n], m, asset);
    }
  }

  /** How many legs are still to be sent. */
  function LegsLeft(sweeps: seq<Sweep>): nat
  {
    if sweeps == [] then 0
    else
      var w := sweeps[|sweeps| - 1];
      LegsLeft(sweeps[..|sweeps| - 1]) + if w.next <= |w.legs| then |w.legs| - w.next else 0
  }

  lemma {:induction false} LegsLeftUpdate(sweeps: seq<Sweep>, i: nat, w: Sweep)
    requires i < |sweeps| && w == sweeps[i].(next := sweeps[i].next + 1) && sweeps[i].next < |sweeps[i].legs|
    ensures LegsLeft(sweeps[i := w]) == LegsLeft(sweeps) - 1
  {
    var n := |sweeps| - 1;
    if i == n {
      assert sweeps[i := w][..n] == sweeps[..n];
    } else {
      LegsLeftUpdate(sweeps[..n], i, w);
      assert sweeps[i := w][..n] == sweeps[..n][i := w];
    }
  }

  lemma {:induction false} SendOpen(s: State, i: nat, m: Merchant, asset: string)
    requires Valid(s) && Fresh(s, m, asset) && i < |s.sweeps| && Counts(s.sweeps[i], m, asset) && Pending(s.sweeps[i])
    ensures var t := Do(s, PostNext(i, true));
      Slack(t, m, asset) == Slack(s, m, asset) && Fresh(t, m, asset) && LegsLeft(t.sweeps) == LegsLeft(s.sweeps) - 1
  {
    var w := s.sweeps[i];
    var e := EntryOf(w, w.next);
    assert Proper(w) && IsOpen(s, i, w.next, m, asset);
    PostedTakes(s.journal, w, m, asset);
    NextLeg(w, m, asset);
    OpenSumUpdate(s.sweeps, i, w.(next := w.next + 1), m, asset);
    LegsLeftUpdate(s.sweeps, i, w.(next := w.next + 1));
    StillFresh(s, i, m, asset);
  }

  lemma {:induction false} StillFresh(s: State, i: nat, m: Merchant, asset: string)
    requires Valid(s) && Fresh(s, m, asset) && i < |s.sweeps| && Counts(s.sweeps[i], m, asset) && Pending(s.sweeps[i])
    requires EntryOf(s.sweeps[i], s.sweeps[i].next).Success?
    ensures Fresh(Do(s, PostNext(i, true)), m, asset)
  {
    var w, t := s.sweeps[i], Do(s, PostNext(i, true));
    var e := EntryOf(w, w.next).value;
    assert IsOpen(s, i, w.next, m, asset) && e.key == KeyOf(w, w.next);
    RecordedKeys(s.journal, e);
    forall a: nat, k: nat | IsOpen(t, a, k, m, asset)
      ensures IsOpen(s, a, k, m, asset) && KeyOf(t.sweeps[a], k) == KeyOf(s.sweeps[a], k) != e.key
    {
    }
  }

  /** If the open legs are not covered, sending them leaves the merchant short: so covering
      them is exactly what keeps it safe from the sweeps that are under way. */
  lemma {:induction false} NotBackedGoesShort(s: State, m: Merchant, asset: string) returns (steps: seq<Step>)
    requires Valid(s) && Fresh(s, m, asset) && !Backed(s, m, asset)
    ensures forall i :: 0 <= i < |steps| ==> steps[i].PostNext? && steps[i].sent
    ensures Surplus(RunSteps(s, steps).journal, m, asset) < 0
    decreases LegsLeft(s.sweeps)
  {
    if Surplus(s.journal, m, asset) < 0 {
      steps := [];
    } else {
      var i := SomeOpen(s.sweeps, m, asset);
      SendOpen(s, i, m, asset);
      DoValid(s, PostNext(i, true));
      var rest := NotBackedGoesShort(Do(s, PostNext(i, true)), m, asset);
      steps := [PostNext(i, true)] + rest;
      RunCons(s, PostNext(i, true), rest);
    }
  }

  lemma {:induction false} RunCons(s: State, step: Step, rest: seq<Step>)
    ensures RunSteps(s, [step] + rest) == RunSteps(Do(s, step), rest)
  {
    var all := [step] + rest;
    if rest == [] {
      assert all == [step] && all[..0] == [];
    } else {
      var n := |rest| - 1;
      RunCons(s, step, rest[..n]);
      assert all[..|all| - 1] == [step] + rest[..n];
    }
  }

  /** A plan for the whole surplus, from one address that holds it. */
  function WholePlan(s: State, g: Group, source: Source, asset: string): Step
  {
    PlanSweep(g, source, asset, [Holding("address", 0, Surplus(s.journal, g.merchant, asset))], map[], 0)
  }

  /** From every state with an open leg of the merchant, planning it again on a free chain can
      leave it short, if the entries that follow are new. */
  lemma {:induction false} OverlapGoesShort(s: State, g: Group, source: Source, asset: string)
    returns (posts: seq<Step>)
    requires Valid(s) && Backed(s, g.merchant, asset) && !Leased(s.sweeps, g)
    requires Like(PoolPattern(g.merchant), PoolAddr(g.chain, g.merchant.name))
    requires OpenSum(s.sweeps, g.merchant, asset) > 0
    requires Fresh(Do(s, WholePlan(s, g, source, asset)), g.merchant, asset)
    ensures forall i :: 0 <= i < |posts| ==> posts[i].PostNext? && posts[i].sent
    ensures Surplus(RunSteps(s, [WholePlan(s, g, source, asset)] + posts).journal, g.merchant, asset) < 0
  {
    var p := WholePlan(s, g, source, asset);
    WholeSurplus(s.journal, p, Surplus(s.journal, g.merchant, asset));
    PlanSlack(s, p, g.merchant, asset);
    DoValid(s, p);
    posts := NotBackedGoesShort(Do(s, p), g.merchant, asset);
    RunCons(s, p, posts);
  }

  // -------------------------------------------------------------- two chains, one surplus

  /** The lease does not prevent it: two sweeps of one merchant on two chains, planned before
      either posts, take its surplus twice. */
  lemma {:induction false} TwoChainsTakeTwice(j: seq<Entry>, m: Merchant, c: string, d: string, a: Source, b: Source,
                                              asset: string)
    requires SimpleNames(m) && UpperCase(c) != UpperCase(d) && Surplus(j, m, asset) > 0
    requires forall k :: k in Keys(j) ==> !k.SweepKey? && !k.FeeKey?
    requires a.Console? || b.Console? || a != b
    ensures var h := [Holding("address", 0, Surplus(j, m, asset))];
      var steps := [PlanSweep(Group(m, c), a, asset, h, map[], 0), PlanSweep(Group(m, d), b, asset, h, map[], 0),
                    PostNext(0, true), PostNext(1, true)];
      Surplus(RunSteps(State(j, []), steps).journal, m, asset) == -Surplus(j, m, asset)
  {
    var x := Surplus(j, m, asset);
    var h := [Holding("address", 0, x)];
    var p, r := PlanSweep(Group(m, c), a, asset, h, map[], 0), PlanSweep(Group(m, d), b, asset, h, map[], 0);
    var s0 := State(j, []);
    var v, w := NewSweep(j, p), NewSweep(j, r);
    WholeSurplus(j, p, x);
    WholeSurplus(j, r, x);
    PoolByName(m, c, m.name);
    PoolByName(m, d, m.name);
    var s2 := State(j, [v, w]);
    assert Do(Do(s0, p), r) == s2;
    TwoSweepsPost(s2, v, w, m, asset, x);
    FourSteps(s0, p, r);
  }

  lemma {:induction false} FourSteps(s: State, p: Step, r: Step)
    ensures RunSteps(s, [p, r, PostNext(0, true), PostNext(1, true)])
      == Do(Do(Do(Do(s, p), r), PostNext(0, true)), PostNext(1, true))
  {
    var u, t := PostNext(0, true), PostNext(1, true);
    RunCons(s, p, [r, u, t]);
    RunCons(Do(s, p), r, [u, t]);
    RunCons(Do(Do(s, p), r), u, [t]);
    RunCons(Do(Do(Do(s, p), r), u), t, []);
    assert [p] + [r, u, t] == [p, r, u, t] && [r] + [u, t] == [r, u, t] && [u] + [t] == [u, t] && [t] + [] == [t];
  }

  lemma {:induction false} TwoSweepsPost(s: State, v: Sweep, w: Sweep, m: Merchant, asset: string, x: int)
    requires s.sweeps == [v, w] && |v.legs| == 1 == |w.legs| && v.next == 0 == w.next && x > 0
    requires v.legs[0].amount == x == w.legs[0].amount && Counts(v, m, asset) && Counts(w, m, asset)
    requires forall k :: k in Keys(s.journal) ==> !k.SweepKey? && !k.FeeKey?
    requires KeyOf(v, 0) != KeyOf(w, 0)
    ensures Surplus(Do(Do(s, PostNext(0, true)), PostNext(1, true)).journal, m, asset)
      == Surplus(s.journal, m, asset) - 2 * x
  {
    var t := Do(s, PostNext(0, true));
    PostFresh(s, 0, m, asset);
    PostFresh(t, 1, m, asset);
  }

  lemma {:induction false} PostFresh(s: State, id: nat, m: Merchant, asset: string)
    requires id < |s.sweeps| && Pending(s.sweeps[id]) && Proper(s.sweeps[id]) && Counts(s.sweeps[id], m, asset)
    requires KeyOf(s.sweeps[id], s.sweeps[id].next) !in Keys(s.journal)
    ensures var w, t := s.sweeps[id], Do(s, PostNext(id, true));
      && Surplus(t.journal, m, asset) == Surplus(s.journal, m, asset) - w.legs[w.next].amount
      && Keys(t.journal) == Keys(s.journal) + {KeyOf(w, w.next)}
      && t.sweeps == s.sweeps[id := w.(next := w.next + 1)]
  {
    var w := s.sweeps[id];
    PostedTakes(s.journal, w, m, asset);
    RecordedKeys(s.journal, EntryOf(w, w.next).value);
  }

  // -------------------------------------------------------------- what the lease does give

  /** Every sweep that counts as the merchant's is of this one group, and none of its leases
      runs out under it. */
  ghost predicate OneGroup(steps: seq<Step>, g: Group)
  {
    && (forall n :: 0 <= n < |steps| && steps[n].PlanSweep? ==>
          steps[n].group == g || Elsewhere(steps[n].group, g.merchant))
    && (forall n :: 0 <= n < |steps| ==> !steps[n].Expire?)
  }

  /** A running sweep holds its lease, and sweeps that count are of the group. */
  ghost predicate Held(s: State, g: Group)
  {
    forall i :: 0 <= i < |s.sweeps| ==>
      && (s.sweeps[i].active ==> s.sweeps[i].leased)
      && (s.sweeps[i].group == g || Elsewhere(s.sweeps[i].group, g.merchant))
  }

  lemma {:induction false} HeldOverRuns(s: State, steps: seq<Step>, g: Group)
    requires Held(s, g) && OneGroup(steps, g)
    ensures Held(RunSteps(s, steps), g)
  {
    if steps != [] {
      var before := steps[..|steps| - 1];
      assert OneGroup(before, g);
      HeldOverRuns(s, before, g);
    }
  }

  /** With the lease free, no leg that counts is open. */
  lemma {:induction false} FreeMeansNoneOpen(sweeps: seq<Sweep>, g: Group, asset: string)
    requires Held(State([], sweeps), g) && !Leased(sweeps, g)
    ensures OpenSum(sweeps, g.merchant, asset) == 0
  {
    if sweeps != [] {
      var n := |sweeps| - 1;
      assert forall i :: 0 <= i < n ==> sweeps[..n][i] == sweeps[i];
      FreeMeansNoneOpen(sweeps[..n], g, asset);
    }
  }

  /** A merchant whose pool is on one chain is protected by the lease: any number of sweeps,
      overlapping in any way, keep it covered. */
  lemma {:induction false} OneChainIsCovered(s: State, steps: seq<Step>, g: Group, asset: string)
    requires Valid(s) && Backed(s, g.merchant, asset) && Held(s, g) && OneGroup(steps, g)
    requires OthersFit(s, steps, g.merchant, asset)
    ensures PoolAssets(RunSteps(s, steps).journal, g.merchant, asset)
         >= Liabilities(RunSteps(s, steps).journal, g.merchant, asset)
  {
    forall n | 0 <= n < |steps| && steps[n].PlanSweep? && steps[n].asset == asset
      ensures var t := RunSteps(s, steps[..n]);
        Leased(t.sweeps, steps[n].group) || Elsewhere(steps[n].group, g.merchant)
        || (SameClaims(g.merchant, steps[n].group.merchant) && OpenSum(t.sweeps, g.merchant, asset) == 0)
    {
      var t := RunSteps(s, steps[..n]);
      assert OneGroup(steps[..n], g);
      HeldOverRuns(s, steps[..n], g);
      if !Leased(t.sweeps, g) {
        assert Held(State([], t.sweeps), g);
        FreeMeansNoneOpen(t.sweeps, g, asset);
      }
    }
    SerialIsCovered(s, steps, g.merchant, asset);
  }

  // ----------------------------------------------------------------- what others may do

  /** Crediting, quarantining, locking and settling never take from a merchant's surplus; a
      release takes what it pays out. */
  lemma {:induction false} OrdinaryEvents(e: Event, entry: Entry, m: Merchant, asset: string, j: seq<Entry>)
    requires !e.ReverseDeposit? && Legal(e) && Build(e) == Success(entry) && SimpleNames(m) && Ordinary(e, m)
    requires entry.key !in Keys(j)
    ensures Surplus(Recorded(j, entry), m, asset) == Surplus(j, m, asset) + ClaimPart(e, m, asset)
    ensures !e.ReleaseDeposit? && !e.SweepFee? ==> ClaimPart(e, m, asset) >= 0
    ensures e.ReleaseDeposit? && e.asset == asset && m == Merchant(e.tenant, e.merchant) ==>
      ClaimPart(e, m, asset) == -e.amount
  {
    BuiltPart(e, entry, m, asset);
    TotalSnoc(OfPattern(PoolPattern(m), asset), j, entry);
    TotalSnoc(OfPattern(LiabilityPattern(m), asset), j, entry);
    if !e.ReleaseDeposit? && !e.SweepFee? { FeesNonNegative(e, entry, asset); }
  }

  /** Reversing an entry takes back what it had added. */
  lemma {:induction false} ReversalTakesBack(j: seq<Entry>, entry: Entry, key: EntryKey, m: Merchant, asset: string)
    requires key !in Keys(j)
    ensures Surplus(Recorded(j, Entry(key, Flip(entry.postings))), m, asset)
      == Surplus(j, m, asset) - Net(m, asset, entry.postings)
  {
    var undo := Entry(key, Flip(entry.postings));
    TotalSnoc(OfPattern(PoolPattern(m), asset), j, undo);
    TotalSnoc(OfPattern(LiabilityPattern(m), asset), j, undo);
    SumFlip(OfPattern(PoolPattern(m), asset), entry.postings);
    SumFlip(OfPattern(LiabilityPattern(m), asset), entry.postings);
  }

  // ------------------------------------------------------------- a sweep takes its plan

  /** The legs of one payout's sweep have keys of their own; two legs of the console's share one
      exactly when they move the same amount from the same address. */
  lemma {:induction false} KeysOfLegs(w: Sweep, i: nat, k: nat)
    requires i < |w.legs| && k < |w.legs|
    ensures KeyOf(w, i) == KeyOf(w, k) <==>
      if w.source.AfterPayout? then i == k
      else w.legs[i].address == w.legs[k].address && w.legs[i].amount == w.legs[k].amount
  {
  }

  function Posts(id: nat, n: nat): (r: seq<Step>)
    ensures |r| == n
  {
    seq(n, i requires 0 <= i < n => PostNext(id, true))
  }

  /** No entry of this payout's sweep is in the journal from this leg on. */
  ghost predicate NewFrom(j: seq<Entry>, payout: string, leg: nat)
  {
    forall k :: k in Keys(j) && k.FeeKey? && k.payout == payout ==> k.leg < leg
  }

  /** Sweep id has posted n legs since it was w, and the surplus is down by what they carry. */
  ghost predicate HasTaken(s: State, t: State, id: nat, w: Sweep, n: nat, m: Merchant, asset: string)
    requires w.next + n <= |w.legs| && w.source.AfterPayout?
  {
    && id < |t.sweeps| && t.sweeps[id] == w.(next := w.next + n) && NewFrom(t.journal, w.source.payout, w.next + n)
    && Surplus(t.journal, m, asset) == Surplus(s.journal, m, asset) - LegSum(w.legs[w.next..w.next + n])
  }

  lemma {:induction false} TakesOneMore(s: State, t: State, id: nat, w: Sweep, n: nat, m: Merchant, asset: string)
    requires Proper(w) && w.source.AfterPayout? && Counts(w, m, asset) && w.next + n < |w.legs|
    requires HasTaken(s, t, id, w, n, m, asset)
    ensures HasTaken(s, Do(t, PostNext(id, true)), id, w, n + 1, m, asset)
  {
    PostFresh(t, id, m, asset);
    LegSumSnoc(w.legs[w.next..w.next + n], w.legs[w.next + n]);
    assert w.legs[w.next..w.next + n + 1] == w.legs[w.next..w.next + n] + [w.legs[w.next + n]];
  }

  /** A payout's sweep that sends all its legs takes exactly what it planned, if its keys are new. */
  lemma {:induction false} SweepTakesItsPlan(s: State, id: nat, n: nat, m: Merchant, asset: string)
    requires id < |s.sweeps| && Proper(s.sweeps[id]) && s.sweeps[id].source.AfterPayout?
    requires Counts(s.sweeps[id], m, asset) && s.sweeps[id].next + n <= |s.sweeps[id].legs|
    requires NewFrom(s.journal, s.sweeps[id].source.payout, s.sweeps[id].next)
    ensures HasTaken(s, RunSteps(s, Posts(id, n)), id, s.sweeps[id], n, m, asset)
  {
    var w := s.sweeps[id];
    if n == 0 {
      assert w.legs[w.next..w.next] == [];
    } else {
      SweepTakesItsPlan(s, id, n - 1, m, asset);
      assert Posts(id, n)[..n - 1] == Posts(id, n - 1) && Posts(id, n)[n - 1] == PostNext(id, true);
      TakesOneMore(s, RunSteps(s, Posts(id, n - 1)), id, w, n - 1, m, asset);
    }
  }

  /** Once every sweep of a group has finished or lost its lease, the group can be planned again;
      before that it cannot. */
  lemma {:induction false} LeaseIsFreed(s: State, id: nat, g: Group)
    requires id < |s.sweeps| && SameLease(s.sweeps[id].group, g)
    requires forall i :: 0 <= i < |s.sweeps| && i != id && SameLease(s.sweeps[i].group, g) ==> !s.sweeps[i].leased
    ensures !Leased(Do(s, Finish(id)).sweeps, g) && !Leased(Do(s, Expire(id)).sweeps, g)
    ensures s.sweeps[id].leased ==> Leased(s.sweeps, g)
  {
  }
}
