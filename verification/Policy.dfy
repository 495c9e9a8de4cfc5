/** The payout policy decision and the approval table
    (backend/src/chains/payout/policy.ts, backend/src/stores/approval.store.ts). The
    kill-switch, allow-list, sanctions, solvency and velocity ports answer from outside:
    their answers are inputs. */
module Policy {
  import opened Wrappers
  import opened Sets

  datatype ApprovalPolicy = ApprovalPolicy(threshold: int, required: int)

  datatype TimeLockPolicy = TimeLockPolicy(threshold: int, delayMs: int)

  datatype PolicyConfig = PolicyConfig(
    maxPerPayout: int, approval: Option<ApprovalPolicy>, timeLock: Option<TimeLockPolicy>)

  /** What the ports answer; a port that is not configured answers permissively. */
  datatype Ports = Ports(halted: bool, allowListed: bool, sanctioned: bool, solvent: bool, withinVelocity: bool)

  datatype Context = Context(amount: int, requester: Option<string>, approvals: seq<string>, requestedAt: int)

  datatype Decision = Allow | Deny | Hold | RequireApproval(needed: int, have: int) | Delay(until: int)

  /** Distinct approvers that count: named, and not the requester. */
  function Counting(approvals: seq<string>, requester: Option<string>): set<string>
  {
    set a | a in approvals && a != "" && Some(a) != requester
  }

  predicate ApprovalMet(config: PolicyConfig, ctx: Context)
  {
    config.approval.Some? && ctx.amount > config.approval.value.threshold ==>
      |Counting(ctx.approvals, ctx.requester)| >= config.approval.value.required
  }

  predicate TimeLockMet(config: PolicyConfig, ctx: Context, now: int)
  {
    config.timeLock.Some? && ctx.amount > config.timeLock.value.threshold ==>
      now >= ctx.requestedAt + config.timeLock.value.delayMs
  }

  /** `evaluate`, in the order the engine asks. A payout is allowed exactly when every
      gate is open. */
  function Evaluate(config: PolicyConfig, ports: Ports, ctx: Context, now: int): (d: Decision)
    ensures d.Allow? <==>
      && !ports.halted && 0 < ctx.amount <= config.maxPerPayout && ports.allowListed && !ports.sanctioned
      && ports.solvent && ports.withinVelocity && ApprovalMet(config, ctx) && TimeLockMet(config, ctx, now)
    ensures d.Hold? <==>
      !ports.halted && 0 < ctx.amount <= config.maxPerPayout && ports.allowListed && ports.sanctioned
    ensures d.RequireApproval? ==>
      && d.have < d.needed && !ApprovalMet(config, ctx)
      && d.needed == config.approval.value.required && d.have == |Counting(ctx.approvals, ctx.requester)|
    ensures d.Delay? ==>
      && ApprovalMet(config, ctx) && !TimeLockMet(config, ctx, now)
      && now < d.until == ctx.requestedAt + config.timeLock.value.delayMs
  {
    if ports.halted then Deny
    else if ctx.amount <= 0 then Deny
    else if ctx.amount > config.maxPerPayout then Deny
    else if !ports.allowListed then Deny
    else if ports.sanctioned then Hold
    else if !ports.solvent then Deny
    else if !ApprovalMet(config, ctx) then
      RequireApproval(config.approval.value.required, |Counting(ctx.approvals, ctx.requester)|)
    else if !TimeLockMet(config, ctx, now) then Delay(ctx.requestedAt + config.timeLock.value.delayMs)
    else if !ports.withinVelocity then Deny
    else Allow
  }

  /** ApprovalStore.approve on the rows of one intent: an approver must be named and must
      not be the requester; a second approval by the same person changes nothing. */
  function RecordApproval(rows: seq<string>, approver: string, requestedBy: Option<string>): Option<seq<string>>
  {
    if approver == "" || (requestedBy.Some? && requestedBy.value != "" && requestedBy.value == approver) then None
    else Some(if approver in rows then rows else rows + [approver])
  }

  /** Approver rows are named, pairwise different and never the requester. */
  ghost predicate ProperRows(rows: seq<string>, requestedBy: Option<string>)
  {
    && (forall i :: 0 <= i < |rows| ==> rows[i] != "" && Some(rows[i]) != requestedBy)
    && (forall i, j :: 0 <= i < j < |rows| ==> rows[i] != rows[j])
  }

  lemma {:induction false} RecordApprovalKeeps(rows: seq<string>, approver: string, requestedBy: Option<string>)
    requires ProperRows(rows, requestedBy)
    ensures var r := RecordApproval(rows, approver, requestedBy);
      r.Some? ==> ProperRows(r.value, requestedBy) && rows <= r.value
  {
  }

  /** Every approver that counts towards a decision is a recorded one. */
  lemma {:induction false} CountingWithin(approvals: seq<string>, rows: seq<string>, requester: Option<string>)
    requires forall a :: a in approvals ==> a in rows
    ensures |Counting(approvals, requester)| <= |Counting(rows, requester)|
  {
    SubsetSize(Counting(approvals, requester), Counting(rows, requester));
  }

  /** With proper rows, the approvers that count are all the rows, each once. */
  lemma {:induction false} CountingProper(rows: seq<string>, requester: Option<string>)
    requires ProperRows(rows, requester)
    ensures |Counting(rows, requester)| == |rows|
  {
    if rows == [] {
      assert Counting(rows, requester) == {};
    } else {
      var k := |rows| - 1;
      CountingProper(rows[..k], requester);
      var c := Counting(rows[..k], requester);
      assert rows[k] !in c;
      assert Counting(rows, requester) == c + {rows[k]} by {
        assert rows == rows[..k] + [rows[k]];
      }
    }
  }

  /** Who counts: everyone on the list with a name, once, except the requester. */
  function Approvers(approvals: seq<string>, requester: Option<string>): seq<string>
  {
    if approvals == [] then []
    else
      var n := |approvals| - 1;
      var rest, a := Approvers(approvals[..n], requester), approvals[n];
      if a == "" || (requester.Some? && requester.value == a) || a in approvals[..n] then rest else rest + [a]
  }

  lemma {:induction false} CountedOnce(approvals: seq<string>, requester: Option<string>)
    ensures |Counting(approvals, requester)| == |Approvers(approvals, requester)|
  {
    if approvals != [] {
      var n := |approvals| - 1;
      var before, after := Counting(approvals[..n], requester), Counting(approvals, requester);
      CountedOnce(approvals[..n], requester);
      assert approvals == approvals[..n] + [approvals[n]];
      var a := approvals[n];
      if a == "" || Some(a) == requester || a in approvals[..n] {
        assert after == before;
      } else {
        assert after == before + {a} && a !in before;
      }
    } else {
      assert Counting(approvals, requester) == {};
    }
  }

  /** The decision in figures: a payout is allowed if and only if no port objects, the amount is
      positive and within the maximum, enough different named people other than the requester
      approved it if it is above the approval threshold, and the delay since the request has
      passed if it is above the time-lock threshold. */
  lemma {:induction false} AllowedExactly(config: PolicyConfig, ports: Ports, ctx: Context, now: int)
    ensures Evaluate(config, ports, ctx, now).Allow? <==>
      && ports == Ports(false, true, false, true, true) && 0 < ctx.amount <= config.maxPerPayout
      && (config.approval.None? || ctx.amount <= config.approval.value.threshold
          || |Approvers(ctx.approvals, ctx.requester)| >= config.approval.value.required)
      && (config.timeLock.None? || ctx.amount <= config.timeLock.value.threshold
          || now - ctx.requestedAt >= config.timeLock.value.delayMs)
  {
    CountedOnce(ctx.approvals, ctx.requester);
  }
}
