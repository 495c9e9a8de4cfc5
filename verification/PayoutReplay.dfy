/** Paying once when calls come one after another (backend/src/services/payout.service.ts):
    a payout that nothing stops sends each leg, broadcasts and settles; a payout that is
    settled or broadcast is never sent again by a later call. */
module PayoutReplay {
  import opened Wrappers
  import opened Ledger
  import opened Journal
  import opened LedgerRuns
  import opened Policy
  import opened PayoutProtocol

  // ------------------------------------------------------- a paid intent stays paid

  /** The call is on the way from the policy check to the broadcast mark. */
  predicate Sending(pc: PC)
  {
    pc.CheckPolicy? || pc.AcquireLease? || pc.GatherLegs? || pc.SetFromAddress? || pc.LockFunds? || pc.SendLegs?
    || pc.MarkBroadcast?
  }

  /** A row that a later call answers from without sending. */
  predicate Paid(row: Row)
  {
    Truthy(row.txId) && (row.status == Settled || (row.status == Broadcast && Truthy(row.from)))
  }

  ghost predicate Quiet(s: State, key: string)
  {
    forall id :: id in s.calls && s.calls[id].key == key ==> !Sending(s.calls[id].pc)
  }

  /** The intent is paid and no call is still sending for it. */
  ghost predicate Closed(s: State, key: string) { key in s.rows && Paid(s.rows[key]) && Quiet(s, key) }

  /** The row is the same, but for becoming settled. */
  predicate SettlesOnly(before: Row, after: Row) { after == before || after == before.(status := Settled) }

  /** From s to t nothing was sent for the key and its row is the same or has become settled. */
  ghost predicate NothingSent(s: State, t: State, key: string)
  {
    && s.sends <= t.sends && (forall i :: |s.sends| <= i < |t.sends| ==> t.sends[i].key != key)
    && key in s.rows && key in t.rows && SettlesOnly(s.rows[key], t.rows[key])
  }

  lemma {:induction false} StepSends(w: World, s: State, id: nat, answer: Answer)
    requires id in s.calls
    ensures var c, t := s.calls[id], Step(w, s, id, answer);
      t.sends == s.sends || (c.pc.SendLegs? && t.sends == s.sends + [Send(c.key, c.pc.sent, s.now)])
  {
    match s.calls[id].pc
    case SendLegs(_, _, _) =>
    case LockFunds(_) =>
    case _ => assert Step(w, s, id, answer).sends == s.sends;
  }

  /** Where an await leaves its call; None when the call ends. */
  function NextPC(w: World, s: State, c: Call, answer: Answer): Option<PC>
  {
    match c.pc
    case LoadForApproval(approver) =>
      if c.key !in s.rows || s.rows[c.key].status == Settled then None
      else Some(WriteApproval(approver, s.rows[c.key]))
    case WriteApproval(approver, row) =>
      if RecordApproval(ApproversFor(s, c.key), approver, row.requestedBy).None? then None else Some(ReadApprovals)
    case ReadApprovals => Some(InsertIntent)
    case InsertIntent => Some(LoadIntent)
    case LoadIntent =>
      if c.key !in s.rows then None
      else if s.rows[c.key].status == Settled && Truthy(s.rows[c.key].txId) then None
      else if Paid(s.rows[c.key]) then Some(PostSettle(true))
      else Some(CheckPolicy(s.rows[c.key]))
    case PostSettle(resumed) => Some(MarkSettled(resumed))
    case MarkSettled(resumed) => if resumed then None else Some(SweepFees(0))
    case SweepFees(leg) => if answer.ok then Some(SweepFees(leg + 1)) else Some(ReleaseLease)
    case _ => None
  }

  /** The calls after one of them moved on or ended. */
  ghost predicate CallMoved(before: map<nat, Call>, after: map<nat, Call>, id: nat, pc: Option<PC>)
    requires id in before
  {
    if pc.None? then after == before - {id}
    else id in after && after[id].key == before[id].key && after[id].pc == pc.value && after == before[id := after[id]]
  }

  /** Outside the sending stretch, an await moves its own call as NextPC says. */
  lemma {:induction false} StepCalls(w: World, s: State, id: nat, answer: Answer)
    requires id in s.calls && !Sending(s.calls[id].pc)
    ensures CallMoved(s.calls, Step(w, s, id, answer).calls, id, NextPC(w, s, s.calls[id], answer))
  {
    match s.calls[id].pc
    case LoadForApproval(_) =>
    case WriteApproval(_, _) =>
    case ReadApprovals =>
    case InsertIntent =>
    case LoadIntent =>
    case PostSettle(_) =>
    case MarkSettled(_) =>
    case SweepFees(_) =>
    case ReleaseLease =>
    case _ =>
  }

  /** Within it, an await leaves the other calls alone and its own call with its key. */
  lemma {:induction false} SendingCalls(w: World, s: State, id: nat, answer: Answer)
    requires id in s.calls && Sending(s.calls[id].pc)
    ensures var t := Step(w, s, id, answer);
      id in t.calls ==> t.calls[id].key == s.calls[id].key && t.calls == s.calls[id := t.calls[id]]
    ensures var t := Step(w, s, id, answer); id !in t.calls ==> t.calls == s.calls - {id}
  {
    match s.calls[id].pc
    case CheckPolicy(_) =>
    case AcquireLease =>
    case GatherLegs =>
    case SetFromAddress(_, _) =>
    case LockFunds(_) =>
    case SendLegs(_, _, _) =>
    case MarkBroadcast(_) =>
    case _ =>
  }

  /** A call for a paid intent never starts sending. */
  lemma {:induction false} NextIsQuiet(w: World, s: State, c: Call, answer: Answer)
    requires c.key in s.rows && Paid(s.rows[c.key]) && !Sending(c.pc)
    ensures var pc := NextPC(w, s, c, answer); pc.Some? ==> !Sending(pc.value)
  {
  }

  lemma {:induction false} StaysQuiet(w: World, s: State, id: nat, answer: Answer, key: string)
    requires id in s.calls && Closed(s, key)
    ensures Quiet(Step(w, s, id, answer), key)
  {
    if Sending(s.calls[id].pc) {
      SendingCalls(w, s, id, answer);
    } else {
      StepCalls(w, s, id, answer);
      if s.calls[id].key == key { NextIsQuiet(w, s, s.calls[id], answer); }
    }
  }

  lemma {:induction false} ClosedStep(w: World, s: State, id: nat, answer: Answer, key: string)
    requires id in s.calls && Closed(s, key)
    ensures Closed(Step(w, s, id, answer), key) && NothingSent(s, Step(w, s, id, answer), key)
  {
    var c := s.calls[id];
    StepSends(w, s, id, answer);
    StepRows(w, s, id, answer);
    PaidRow(w, s, c, key);
    StaysQuiet(w, s, id, answer, key);
  }

  lemma {:induction false} PaidRow(w: World, s: State, c: Call, key: string)
    requires Closed(s, key) && (c.key == key ==> !Sending(c.pc))
    ensures var rows := WrittenRows(w, s, c);
      key in rows && Paid(rows[key]) && SettlesOnly(s.rows[key], rows[key])
  {
  }

  lemma {:induction false} ClosedAction(w: World, s: State, a: Action, key: string)
    requires Closed(s, key)
    ensures Closed(Do(w, s, a), key) && NothingSent(s, Do(w, s, a), key)
  {
    if a.Advance? && a.call in s.calls { ClosedStep(w, s, a.call, a.answer, key); }
  }

  lemma {:induction false} NothingSentTwice(s: State, t: State, u: State, key: string)
    requires NothingSent(s, t, key) && NothingSent(t, u, key)
    ensures NothingSent(s, u, key)
  {
  }

  /** Once an intent is settled, or broadcast with its transaction on record, and no call is
      still sending for it, nothing is ever sent for it again, whatever calls, crashes,
      approvals and ledger events follow; its row stays as it is but for becoming settled. */
  lemma {:induction false} NeverPaidAgain(w: World, before: seq<Action>, more: seq<Action>, key: string)
    requires Closed(RunActions(w, before), key)
    ensures Closed(RunActions(w, before + more), key)
    ensures NothingSent(RunActions(w, before), RunActions(w, before + more), key)
  {
    if more == [] {
      assert before + more == before;
    } else {
      var n := |more| - 1;
      var run := before + more;
      NeverPaidAgain(w, before, more[..n], key);
      assert run == before + more[..n] + [more[n]];
      OneMoreAction(w, RunActions(w, before), before + more[..n], more[n], key);
    }
  }

  lemma {:induction false} OneMoreAction(w: World, s: State, run: seq<Action>, a: Action, key: string)
    requires Closed(RunActions(w, run), key) && NothingSent(s, RunActions(w, run), key)
    ensures Closed(RunActions(w, run + [a]), key) && NothingSent(s, RunActions(w, run + [a]), key)
  {
    var t := RunActions(w, run);
    assert (run + [a])[..|run|] == run;
    assert RunActions(w, run + [a]) == Do(w, t, a);
    ClosedAction(w, t, a, key);
    NothingSentTwice(s, t, Do(w, t, a), key);
  }

  /** A settled row does not change at all. */
  lemma {:induction false} SettledStaysAsIs(w: World, before: seq<Action>, more: seq<Action>, key: string)
    requires Closed(RunActions(w, before), key) && RunActions(w, before).rows[key].status == Settled
    ensures key in RunActions(w, before + more).rows
    ensures RunActions(w, before + more).rows[key] == RunActions(w, before).rows[key]
  {
    NeverPaidAgain(w, before, more, key);
  }

  // ---------------------------------------------------------------- one call by itself

  /** The state with one more call in it. */
  function At(s: State, id: nat, c: Call): State { s.(calls := s.calls[id := c]) }

  /** A call that makes its awaits one after another, with these answers. */
  function Advances(w: World, s: State, id: nat, answers: seq<Answer>): State
  {
    if answers == [] then s
    else
      var t := Advances(w, s, id, answers[..|answers| - 1]);
      if id in t.calls then Step(w, t, id, answers[|answers| - 1]) else t
  }

  lemma {:induction false} OneMoreAnswer(w: World, s: State, id: nat, answers: seq<Answer>, x: Answer)
    ensures var t := Advances(w, s, id, answers);
      Advances(w, s, id, answers + [x]) == if id in t.calls then Step(w, t, id, x) else t
  {
    assert (answers + [x])[..|answers|] == answers;
  }

  lemma {:induction false} GotoAt(s: State, id: nat, c: Call, pc: PC)
    ensures Goto(At(s, id, c), id, pc) == At(s, id, c.(pc := pc))
  {
    assert s.calls[id := c][id := c.(pc := pc)] == s.calls[id := c.(pc := pc)];
  }

  lemma {:induction false} FinishAt(s: State, id: nat, c: Call)
    requires id !in s.calls
    ensures Finish(At(s, id, c), id) == s
  {
    assert s.calls[id := c] - {id} == s.calls;
  }

  /** What `payout` returns for a settled intent: the call ends and the state is as before. */
  lemma {:induction false} SettledReturns(w: World, s: State, id: nat, key: string, x: Answer, y: Answer)
    requires key in s.rows && s.rows[key].status == Settled && Truthy(s.rows[key].txId) && id !in s.calls
    ensures Advances(w, Do(w, s, StartPayout(id, key)), id, [x, y]) == s
  {
    var c := Call(key, [], s.now, InsertIntent);
    var t := At(s, id, c);
    GotoAt(s, id, c, LoadIntent);
    assert Step(w, t, id, x) == At(s, id, c.(pc := LoadIntent));
    FinishAt(s, id, c.(pc := LoadIntent));
    OneMoreAnswer(w, t, id, [], x);
    OneMoreAnswer(w, t, id, [x], y);
    assert [] + [x] == [x] && [x] + [y] == [x, y];
  }

  /** What it does for an intent that was broadcast but not settled: it sends nothing, settles
      in the ledger, marks the row settled and ends. */
  lemma {:induction false} BroadcastResumes(w: World, s: State, id: nat, key: string, x: seq<Answer>)
    requires Ok(w, s) && key in s.rows && id !in s.calls && |x| == 4
    requires s.rows[key].status == Broadcast && Truthy(s.rows[key].txId) && Truthy(s.rows[key].from)
    ensures var t := Advances(w, Do(w, s, StartPayout(id, key)), id, x);
      && t.sends == s.sends && t.calls == s.calls && HasSettle(t.book, key)
      && t.rows == s.rows[key := s.rows[key].(status := Settled)]
  {
    var c := Call(key, [], s.now, InsertIntent);
    var t := At(s, id, c);
    GotoAt(s, id, c, LoadIntent);
    assert Step(w, t, id, x[0]) == At(s, id, c.(pc := LoadIntent));
    GotoAt(s, id, c.(pc := LoadIntent), PostSettle(true));
    assert Step(w, At(s, id, c.(pc := LoadIntent)), id, x[1]) == At(s, id, c.(pc := PostSettle(true)));
    var u := s.(book := Apply(s.book, Settle(key, w.params(key).payout, None)));
    GotoAt(u, id, c.(pc := PostSettle(true)), MarkSettled(true));
    assert Step(w, At(s, id, c.(pc := PostSettle(true))), id, x[2]) == At(u, id, c.(pc := MarkSettled(true)));
    var v := u.(rows := SetSettled(u.rows, key));
    FinishAt(v, id, c.(pc := MarkSettled(true)));
    assert Step(w, At(u, id, c.(pc := MarkSettled(true))), id, x[3]) == v;
    FourAnswers(w, t, id, x);
    assert RowOk(w, s, key);
    SettleLands(w, s.book, key);
  }

  lemma {:induction false} FourAnswers(w: World, s: State, id: nat, x: seq<Answer>)
    requires |x| == 4 && id in s.calls && id in Step(w, s, id, x[0]).calls
    requires var t := Step(w, s, id, x[0]); id in Step(w, t, id, x[1]).calls
    requires var t := Step(w, Step(w, s, id, x[0]), id, x[1]); id in Step(w, t, id, x[2]).calls
    ensures Advances(w, s, id, x) == Step(w, Step(w, Step(w, Step(w, s, id, x[0]), id, x[1]), id, x[2]), id, x[3])
  {
    OneMoreAnswer(w, s, id, [], x[0]);
    OneMoreAnswer(w, s, id, x[..1], x[1]);
    OneMoreAnswer(w, s, id, x[..2], x[2]);
    OneMoreAnswer(w, s, id, x[..3], x[3]);
    assert x[..1] == [] + [x[0]] && x[..2] == x[..1] + [x[1]] && x[..3] == x[..2] + [x[2]] && x == x[..3] + [x[3]];
  }

  /** An approval is recorded before the payout is tried, and the payout is tried with every
      approver on record, the new one included. */
  lemma {:induction false} ApproveReads(w: World, s: State, id: nat, key: string, approver: string, x: Answer,
                                        y: Answer, z: Answer)
    requires key in s.rows && s.rows[key].status != Settled && id !in s.calls
    requires approver != "" && s.rows[key].requestedBy != Some(approver)
    ensures var before := ApproversFor(s, key);
      var after := if approver in before then before else before + [approver];
      Advances(w, Do(w, s, StartApprove(id, key, approver)), id, [x, y, z])
      == At(s.(approvals := s.approvals[key := after]), id, Call(key, after, s.now, InsertIntent))
  {
    var before := ApproversFor(s, key);
    var after := if approver in before then before else before + [approver];
    var row := s.rows[key];
    var c := Call(key, [], s.now, LoadForApproval(approver));
    var t := s.(approvals := s.approvals[key := after]);
    GotoAt(s, id, c, WriteApproval(approver, row));
    assert Step(w, At(s, id, c), id, x) == At(s, id, c.(pc := WriteApproval(approver, row)));
    GotoAt(t, id, c.(pc := WriteApproval(approver, row)), ReadApprovals);
    assert Step(w, At(s, id, c.(pc := WriteApproval(approver, row))), id, y) == At(t, id, c.(pc := ReadApprovals));
    var d := Call(key, after, s.now, InsertIntent);
    assert t.calls[id := c.(pc := ReadApprovals)][id := d] == t.calls[id := d];
    assert Step(w, At(t, id, c.(pc := ReadApprovals)), id, z) == At(t, id, d);
    OneMoreAnswer(w, At(s, id, c), id, [], x);
    OneMoreAnswer(w, At(s, id, c), id, [x], y);
    OneMoreAnswer(w, At(s, id, c), id, [x, y], z);
    assert [] + [x] == [x] && [x] + [y] == [x, y] && [x, y] + [z] == [x, y, z];
  }

  // ------------------------------------------------------------ a payout runs through

  /** The call c, in state s, makes one await and stands at pc in state t. */
  ghost predicate Moves(w: World, s: State, id: nat, c: Call, x: Answer, t: State, pc: PC)
  {
    Step(w, At(s, id, c), id, x) == At(t, id, c.(pc := pc))
  }

  /** Up to the gathered legs: the policy allows it, the lease is free, the pool has the funds. */
  ghost predicate Admitted(w: World, s: State, key: string, x: seq<Answer>)
  {
    && |x| == 7 && x[3].ok && x[4].ok && LockSucceeds(s, w.params(key).payout)
    && var p := w.params(key);
       Evaluate(w.config, x[2].ports, Context(p.payout.amount, p.requester, [], s.now), s.now).Allow?
  }

  /** The state once a first request has locked its funds. */
  function LockedState(w: World, s: State, key: string, from: string): State
  {
    s.(rows := s.rows[key := Row(Broadcasting, None, Some(from), w.params(key).requester, s.now)],
       book := Apply(s.book, Lock(key, w.params(key).payout)))
  }

  lemma {:induction false} FirstSteps(w: World, s: State, id: nat, c: Call, x: seq<Answer>)
    requires c.pc == InsertIntent && c.approvals == [] && c.startedAt == s.now && c.key !in s.rows
    requires Admitted(w, s, c.key, x)
    ensures var row := Row(Locked, None, None, w.params(c.key).requester, s.now);
      var t := s.(rows := s.rows[c.key := row]);
      && Moves(w, s, id, c, x[0], t, LoadIntent)
      && Moves(w, t, id, c.(pc := LoadIntent), x[1], t, CheckPolicy(row))
      && Moves(w, t, id, c.(pc := CheckPolicy(row)), x[2], t, AcquireLease)
  {
    var row := Row(Locked, None, None, w.params(c.key).requester, s.now);
    var t := s.(rows := s.rows[c.key := row]);
    GotoAt(t, id, c, LoadIntent);
    GotoAt(t, id, c.(pc := LoadIntent), CheckPolicy(row));
    GotoAt(t, id, c.(pc := CheckPolicy(row)), AcquireLease);
  }

  lemma {:induction false} LockSteps(w: World, s: State, t: State, id: nat, c: Call, x: seq<Answer>)
    requires c.pc == AcquireLease && Admitted(w, s, c.key, x)
    requires t == s.(rows := s.rows[c.key := Row(Locked, None, None, w.params(c.key).requester, s.now)])
    ensures var u := t.(rows := SetFrom(t.rows, c.key, x[4].text));
      && Moves(w, t, id, c, x[3], t, GatherLegs)
      && Moves(w, t, id, c.(pc := GatherLegs), x[4], t, SetFromAddress(x[4].legs, x[4].text))
      && Moves(w, t, id, c.(pc := SetFromAddress(x[4].legs, x[4].text)), x[5], u, LockFunds(x[4].legs))
      && Moves(w, u, id, c.(pc := LockFunds(x[4].legs)), x[6], LockedState(w, s, c.key, x[4].text),
               SendLegs(x[4].legs, 0, ""))
  {
    var u := t.(rows := SetFrom(t.rows, c.key, x[4].text));
    var v := LockedState(w, s, c.key, x[4].text);
    GotoAt(t, id, c, GatherLegs);
    GotoAt(t, id, c.(pc := GatherLegs), SetFromAddress(x[4].legs, x[4].text));
    GotoAt(u, id, c.(pc := SetFromAddress(x[4].legs, x[4].text)), LockFunds(x[4].legs));
    assert v.rows == u.rows;
    GotoAt(v, id, c.(pc := LockFunds(x[4].legs)), SendLegs(x[4].legs, 0, ""));
  }

  /** The transfers of legs 0 to n - 1. */
  function Legs(key: string, n: nat, at: int): (r: seq<Send>)
    ensures |r| == n
  {
    seq(n, i requires 0 <= i < n => Send(key, i, at))
  }

  /** The state after the first n legs of a call. */
  function AfterSends(s: State, key: string, n: nat): State
  {
    s.(sends := s.sends + Legs(key, n, s.now))
  }

  /** The call after so many answered sends; the first transfer's id is kept. */
  function Sent(c: Call, legs: nat, x: seq<Answer>): Call
  {
    c.(pc := SendLegs(legs, |x|, if |x| == 0 then "" else x[0].text))
  }

  /** Sending goes leg by leg. */
  lemma {:induction false} SendSteps(w: World, s: State, id: nat, c: Call, legs: nat, x: seq<Answer>)
    requires c.pc == SendLegs(legs, 0, "") && |x| <= legs && forall i :: 0 <= i < |x| ==> x[i].ok
    ensures Advances(w, At(s, id, c), id, x) == At(AfterSends(s, c.key, |x|), id, Sent(c, legs, x))
  {
    if x == [] {
      assert s.sends + Legs(c.key, 0, s.now) == s.sends;
    } else {
      var n := |x| - 1;
      SendSteps(w, s, id, c, legs, x[..n]);
      SendStep(w, s, id, c, legs, x[..n], x[n]);
      assert x == x[..n] + [x[n]];
    }
  }

  lemma {:induction false} SendStep(w: World, s: State, id: nat, c: Call, legs: nat, x: seq<Answer>, y: Answer)
    requires |x| < legs && y.ok
    requires Advances(w, At(s, id, c), id, x) == At(AfterSends(s, c.key, |x|), id, Sent(c, legs, x))
    ensures Advances(w, At(s, id, c), id, x + [y])
      == At(AfterSends(s, c.key, |x| + 1), id, Sent(c, legs, x + [y]))
  {
    var d := Sent(c, legs, x);
    OneMoreAnswer(w, At(s, id, c), id, x, y);
    SendOne(w, s, id, d, y);
    NextSent(c, legs, x, y);
  }

  lemma {:induction false} NextSent(c: Call, legs: nat, x: seq<Answer>, y: Answer)
    ensures var d := Sent(c, legs, x);
      d.(pc := SendLegs(legs, |x| + 1, if |x| == 0 then y.text else d.pc.txId)) == Sent(c, legs, x + [y])
  {
  }

  lemma {:induction false} SendOne(w: World, s: State, id: nat, c: Call, x: Answer)
    requires c.pc.SendLegs? && c.pc.sent < c.pc.legs && x.ok
    ensures var n := c.pc.sent;
      Moves(w, AfterSends(s, c.key, n), id, c, x, AfterSends(s, c.key, n + 1),
            SendLegs(c.pc.legs, n + 1, if n == 0 then x.text else c.pc.txId))
  {
    var n := c.pc.sent;
    var t, u := AfterSends(s, c.key, n), AfterSends(s, c.key, n + 1);
    assert t.sends + [Send(c.key, n, s.now)] == u.sends;
    GotoAt(u, id, c, SendLegs(c.pc.legs, n + 1, if n == 0 then x.text else c.pc.txId));
  }

  /** After the last leg: mark, settle, mark. */
  lemma {:induction false} LastSteps(w: World, s: State, id: nat, c: Call, legs: nat, txId: string, x: seq<Answer>)
    requires c.pc == SendLegs(legs, legs, txId) && |x| == 4
    ensures var t := s.(rows := SetBroadcast(s.rows, c.key, txId));
      var u := t.(book := Apply(s.book, Settle(c.key, w.params(c.key).payout, None)));
      && Moves(w, s, id, c, x[0], s, MarkBroadcast(txId))
      && Moves(w, s, id, c.(pc := MarkBroadcast(txId)), x[1], t, PostSettle(false))
      && Moves(w, t, id, c.(pc := PostSettle(false)), x[2], u, MarkSettled(false))
      && Moves(w, u, id, c.(pc := MarkSettled(false)), x[3], u.(rows := SetSettled(u.rows, c.key)), SweepFees(0))
  {
    var t := s.(rows := SetBroadcast(s.rows, c.key, txId));
    var u := t.(book := Apply(s.book, Settle(c.key, w.params(c.key).payout, None)));
    GotoAt(s, id, c, MarkBroadcast(txId));
    GotoAt(t, id, c.(pc := MarkBroadcast(txId)), PostSettle(false));
    GotoAt(u, id, c.(pc := PostSettle(false)), MarkSettled(false));
    GotoAt(u.(rows := SetSettled(u.rows, c.key)), id, c.(pc := MarkSettled(false)), SweepFees(0));
  }

  lemma {:induction false} AdvancesConcat(w: World, s: State, id: nat, x: seq<Answer>, y: seq<Answer>)
    ensures Advances(w, s, id, x + y) == Advances(w, Advances(w, s, id, x), id, y)
  {
    if y == [] {
      assert x + y == x;
    } else {
      var n := |y| - 1;
      AdvancesConcat(w, s, id, x, y[..n]);
      OneMoreAnswer(w, s, id, x + y[..n], y[n]);
      OneMoreAnswer(w, Advances(w, s, id, x), id, y[..n], y[n]);
      assert x + y == x + y[..n] + [y[n]] && y == y[..n] + [y[n]];
    }
  }

  lemma {:induction false} OneMove(w: World, s: State, id: nat, c: Call, x: Answer, t: State, pc: PC, rest: seq<Answer>)
    requires Moves(w, s, id, c, x, t, pc)
    ensures Advances(w, At(s, id, c), id, [x] + rest) == Advances(w, At(t, id, c.(pc := pc)), id, rest)
  {
    OneMoreAnswer(w, At(s, id, c), id, [], x);
    assert [] + [x] == [x];
    AdvancesConcat(w, At(s, id, c), id, [x], rest);
  }

  lemma {:induction false} Opening(w: World, s: State, id: nat, c: Call, x: seq<Answer>)
    requires c.pc == InsertIntent && c.approvals == [] && c.startedAt == s.now && c.key !in s.rows
    requires Admitted(w, s, c.key, x)
    ensures Advances(w, At(s, id, c), id, x)
      == At(LockedState(w, s, c.key, x[4].text), id, c.(pc := SendLegs(x[4].legs, 0, "")))
  {
    var row := Row(Locked, None, None, w.params(c.key).requester, s.now);
    var t := s.(rows := s.rows[c.key := row]);
    var u := t.(rows := SetFrom(t.rows, c.key, x[4].text));
    var from := SetFromAddress(x[4].legs, x[4].text);
    FirstSteps(w, s, id, c, x);
    LockSteps(w, s, t, id, c.(pc := AcquireLease), x);
    OneMove(w, s, id, c, x[0], t, LoadIntent, x[1..]);
    OneMove(w, t, id, c.(pc := LoadIntent), x[1], t, CheckPolicy(row), x[2..]);
    OneMove(w, t, id, c.(pc := CheckPolicy(row)), x[2], t, AcquireLease, x[3..]);
    OneMove(w, t, id, c.(pc := AcquireLease), x[3], t, GatherLegs, x[4..]);
    OneMove(w, t, id, c.(pc := GatherLegs), x[4], t, from, x[5..]);
    OneMove(w, t, id, c.(pc := from), x[5], u, LockFunds(x[4].legs), x[6..]);
    OneMove(w, u, id, c.(pc := LockFunds(x[4].legs)), x[6], LockedState(w, s, c.key, x[4].text),
            SendLegs(x[4].legs, 0, ""), x[7..]);
    Tails(x);
  }

  lemma {:induction false} Tails(x: seq<Answer>)
    ensures forall i :: 0 <= i < |x| ==> x[i..] == [x[i]] + x[i + 1..]
    ensures x[0..] == x && x[|x|..] == []
  {
  }

  lemma {:induction false} Closing(w: World, s: State, id: nat, c: Call, legs: nat, txId: string, x: seq<Answer>)
    requires c.pc == SendLegs(legs, legs, txId) && |x| == 4
    ensures var u := s.(rows := SetBroadcast(s.rows, c.key, txId),
                        book := Apply(s.book, Settle(c.key, w.params(c.key).payout, None)));
      Advances(w, At(s, id, c), id, x) == At(u.(rows := SetSettled(u.rows, c.key)), id, c.(pc := SweepFees(0)))
  {
    var t := s.(rows := SetBroadcast(s.rows, c.key, txId));
    var u := t.(book := Apply(s.book, Settle(c.key, w.params(c.key).payout, None)));
    LastSteps(w, s, id, c, legs, txId, x);
    OneMove(w, s, id, c, x[0], s, MarkBroadcast(txId), x[1..]);
    OneMove(w, s, id, c.(pc := MarkBroadcast(txId)), x[1], t, PostSettle(false), x[2..]);
    OneMove(w, t, id, c.(pc := PostSettle(false)), x[2], u, MarkSettled(false), x[3..]);
    OneMove(w, u, id, c.(pc := MarkSettled(false)), x[3], u.(rows := SetSettled(u.rows, c.key)), SweepFees(0), x[4..]);
    Tails(x);
  }

  /** A first request that the policy allows and nothing stops: its legs are sent in order,
      each once; the row ends settled with the source the pool named, the id of the first
      transfer, the requester and the time of the request; and lock and settlement are in
      the ledger. */
  lemma {:induction false} PayoutRunsThrough(w: World, s: State, id: nat, key: string, x: seq<Answer>,
                                             sent: seq<Answer>, y: seq<Answer>)
    requires Ok(w, s) && id !in s.calls && key !in s.rows && Admitted(w, s, key, x) && |y| == 4
    requires x[4].legs == |sent| > 0 && forall i :: 0 <= i < |sent| ==> sent[i].ok
    ensures var p := w.params(key);
      var t := Advances(w, Do(w, s, StartPayout(id, key)), id, x + sent + y);
      && t.sends == s.sends + Legs(key, |sent|, s.now)
      && t.rows == s.rows[key := Row(Settled, Some(sent[0].text), Some(x[4].text), p.requester, s.now)]
      && t.book == Apply(Apply(s.book, Lock(key, p.payout)), Settle(key, p.payout, None))
      && HasLock(t.book, key) && HasSettle(t.book, key)
  {
    var c := Call(key, [], s.now, InsertIntent);
    var d, e := c.(pc := SendLegs(|sent|, 0, "")), c.(pc := SendLegs(|sent|, |sent|, sent[0].text));
    var v := LockedState(w, s, key, x[4].text);
    var u := AfterSends(v, key, |sent|);
    Opening(w, s, id, c, x);
    SendSteps(w, v, id, d, |sent|, sent);
    Closing(w, u, id, e, |sent|, sent[0].text, y);
    AdvancesConcat(w, At(s, id, c), id, x, sent);
    AdvancesConcat(w, At(s, id, c), id, x + sent, y);
    RanThrough(w, s, u, key, x[4].text, sent[0].text);
  }

  lemma {:induction false} RanThrough(w: World, s: State, u: State, key: string, from: string, txId: string)
    requires Ok(w, s) && LockSucceeds(s, w.params(key).payout)
    requires u.rows == LockedState(w, s, key, from).rows && u.book == LockedState(w, s, key, from).book
    ensures var p := w.params(key);
      && SetSettled(SetBroadcast(u.rows, key, txId), key)
         == s.rows[key := Row(Settled, Some(txId), Some(from), p.requester, s.now)]
      && var b := Apply(u.book, Settle(key, p.payout, None)); HasLock(b, key) && HasSettle(b, key)
  {
    var lock := Lock(key, w.params(key).payout);
    LockLands(s, key, lock.payout);
    LedgerOk(w, s, lock);
    SettleLands(w, u.book, key);
    var settle := Settle(key, w.params(key).payout, None);
    ApplyBookOk(w, u.book, settle);
  }

  // ------------------------------------------------------------------- where a call stops

  /** Approving a settled payout changes nothing. */
  lemma {:induction false} SettledApproval(w: World, s: State, id: nat, key: string, approver: string, x: Answer)
    requires key in s.rows && s.rows[key].status == Settled && id !in s.calls
    ensures Advances(w, Do(w, s, StartApprove(id, key, approver)), id, [x]) == s
  {
    var c := Call(key, [], s.now, LoadForApproval(approver));
    FinishAt(s, id, c);
    OneMoreAnswer(w, At(s, id, c), id, [], x);
    assert [] + [x] == [x];
  }

  /** Before anything is sent a call ends exactly where it is refused: by the policy, a lease
      that is held, a pool that cannot cover it or a balance that is too small; and it then
      leaves everything else as it is. */
  lemma {:induction false} StopsWhenRefused(w: World, s: State, id: nat, c: Call, x: Answer)
    requires id !in s.calls && (c.pc.CheckPolicy? || c.pc.AcquireLease? || c.pc.GatherLegs? || c.pc.LockFunds?)
    ensures var t, p := Step(w, At(s, id, c), id, x), w.params(c.key);
      var refused := match c.pc
        case CheckPolicy(row) =>
          var ctx := Context(p.payout.amount, p.requester, c.approvals, row.createdAt);
          !Evaluate(w.config, x.ports, ctx, c.startedAt).Allow?
        case LockFunds(_) => !LockSucceeds(s, p.payout)
        case _ => !x.ok;
      (id !in t.calls <==> refused) && (refused ==> t == s)
  {
    FinishAt(s, id, c);
  }

  /** A send that fails ends the call; it may have gone out, and is on record as sent. */
  lemma {:induction false} StopsWhenSendFails(w: World, s: State, id: nat, c: Call, x: Answer)
    requires id !in s.calls && c.pc.SendLegs? && c.pc.sent < c.pc.legs
    ensures var t := Step(w, At(s, id, c), id, x);
      && t.sends == s.sends + [Send(c.key, c.pc.sent, s.now)]
      && (id !in t.calls <==> !x.ok) && t.rows == s.rows && t.book == s.book
  {
  }

  /** The entry of a fee leg. */
  function FeeEntry(w: World, key: string, leg: nat, amount: int): Entry
    requires amount > 0
  {
    var p := w.params(key).payout;
    Build(SweepFee(FeeKey(key, leg), p.merchant, p.chain, p.asset, amount, None)).value
  }

  /** The entries of the first fee legs. */
  function FeeEntries(w: World, key: string, x: seq<Answer>): (r: seq<Entry>)
    requires forall i :: 0 <= i < |x| ==> x[i].amount > 0
  {
    if x == [] then [] else FeeEntries(w, key, x[..|x| - 1]) + [FeeEntry(w, key, |x| - 1, x[|x| - 1].amount)]
  }

  /** No fee leg of the payout is in the journal from this one on. */
  ghost predicate NoFeesFrom(j: seq<Entry>, key: string, leg: nat)
  {
    forall k :: k in Keys(j) && k.FeeKey? && k.payout == key ==> k.leg < leg
  }

  /** The fee legs after a payout are posted one by one, each under its own key. */
  lemma {:induction false} FeeLegsPosted(w: World, s: State, id: nat, c: Call, x: seq<Answer>)
    requires c.pc == SweepFees(0) && NoFeesFrom(s.book.journal, c.key, 0)
    requires forall i :: 0 <= i < |x| ==> x[i].ok && x[i].amount > 0
    ensures var t := Advances(w, At(s, id, c), id, x);
      && t == At(s.(book := t.book), id, c.(pc := SweepFees(|x|)))
      && t.book.journal == s.book.journal + FeeEntries(w, c.key, x) && NoFeesFrom(t.book.journal, c.key, |x|)
  {
    if x == [] {
      assert s.book.journal + [] == s.book.journal;
    } else {
      var n := |x| - 1;
      FeeLegsPosted(w, s, id, c, x[..n]);
      assert x == x[..n] + [x[n]];
      NextFeeLeg(w, s, Advances(w, At(s, id, c), id, x[..n]).book, id, c, x[..n], x[n]);
    }
  }

  lemma {:induction false} NextFeeLeg(w: World, s: State, b: Book, id: nat, c: Call, x: seq<Answer>, y: Answer)
    requires y.ok && y.amount > 0 && (forall i :: 0 <= i < |x| ==> x[i].amount > 0)
    requires Advances(w, At(s, id, c), id, x) == At(s.(book := b), id, c.(pc := SweepFees(|x|)))
    requires b.journal == s.book.journal + FeeEntries(w, c.key, x) && NoFeesFrom(b.journal, c.key, |x|)
    ensures var t := Advances(w, At(s, id, c), id, x + [y]);
      && t == At(s.(book := t.book), id, c.(pc := SweepFees(|x| + 1)))
      && t.book.journal == s.book.journal + FeeEntries(w, c.key, x + [y])
      && NoFeesFrom(t.book.journal, c.key, |x| + 1)
  {
    OneMoreAnswer(w, At(s, id, c), id, x, y);
    FeeLegPosted(w, s.(book := b), id, c.(pc := SweepFees(|x|)), y);
    NextFeeEntry(w, c.key, x, y);
  }

  lemma {:induction false} NextFeeEntry(w: World, key: string, x: seq<Answer>, y: Answer)
    requires y.amount > 0 && (forall i :: 0 <= i < |x| ==> x[i].amount > 0)
    ensures FeeEntries(w, key, x + [y]) == FeeEntries(w, key, x) + [FeeEntry(w, key, |x|, y.amount)]
  {
    assert (x + [y])[..|x|] == x;
  }

  lemma {:induction false} FeeLegPosted(w: World, s: State, id: nat, c: Call, x: Answer)
    requires c.pc.SweepFees? && x.ok && x.amount > 0 && FeeKey(c.key, c.pc.leg) !in Keys(s.book.journal)
    ensures var leg := c.pc.leg;
      var entry := FeeEntry(w, c.key, leg, x.amount);
      var t := Step(w, At(s, id, c), id, x);
      && t == At(s.(book := t.book), id, c.(pc := SweepFees(leg + 1))) && t.book.journal == s.book.journal + [entry]
      && entry.key == FeeKey(c.key, leg) && Keys(t.book.journal) == Keys(s.book.journal) + {entry.key}
  {
    var p := w.params(c.key).payout;
    var e := SweepFee(FeeKey(c.key, c.pc.leg), p.merchant, p.chain, p.asset, x.amount, None);
    var entry := Build(e).value;
    assert Apply(s.book, e) == Post(s.book, e, entry);
    RecordedKeys(s.book.journal, entry);
    GotoAt(s.(book := Apply(s.book, e)), id, c, SweepFees(c.pc.leg + 1));
  }
}
