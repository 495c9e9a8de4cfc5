/** The payout protocol (backend/src/services/payout.service.ts,
    backend/src/chains/payout/payout-journal.ts): any number of `payout` and `approve`
    calls, overlapping, retried, and cut off at any await. One action of the model is one
    await of one call. Each idempotency key always carries the same parameters, and
    `lockPayout` is one atomic step. */
module PayoutProtocol {
  import opened Wrappers
  import opened Ledger
  import opened Journal
  import opened LedgerRuns
  import opened Policy

  // ------------------------------------------------------------ intent rows

  datatype Status = Locked | Broadcasting | Broadcast | Settled | Failed

  datatype Row = Row(status: Status, txId: Option<string>, from: Option<string>,
                     requestedBy: Option<string>, createdAt: int)

  type Rows = map<string, Row>

  /** `begin`: insert, or do nothing when the key exists. */
  function Begin(rows: Rows, key: string, requestedBy: Option<string>, now: int): Rows
  {
    if key in rows then rows else rows[key := Row(Locked, None, None, requestedBy, now)]
  }

  function SetFrom(rows: Rows, key: string, from: string): Rows
  {
    if key !in rows then rows else rows[key := rows[key].(from := Some(from), status := Broadcasting)]
  }

  function SetBroadcast(rows: Rows, key: string, txId: string): Rows
  {
    if key !in rows then rows else rows[key := rows[key].(txId := Some(txId), status := Broadcast)]
  }

  function SetSettled(rows: Rows, key: string): Rows
  {
    if key !in rows then rows else rows[key := rows[key].(status := Settled)]
  }

  function SetFailed(rows: Rows, key: string): Rows
  {
    if key !in rows then rows else rows[key := rows[key].(status := Failed)]
  }

  /** Whatever is done to the table: an intent stays, with the requester and the time of its
      first request, and a source or a transaction once set is never cleared. */
  ghost predicate RowsKept(before: Rows, after: Rows)
  {
    forall k :: k in before ==> k in after && RowKept(before[k], after[k])
  }

  predicate RowKept(before: Row, after: Row)
  {
    && after.requestedBy == before.requestedBy && after.createdAt == before.createdAt
    && (before.txId.Some? ==> after.txId.Some?) && (before.from.Some? ==> after.from.Some?)
  }

  /** What each status says about the row. No call ever marks an intent failed. */
  predicate StatusOk(row: Row)
  {
    match row.status
    case Locked => row.txId.None? && row.from.None?
    case Broadcasting => row.from.Some?
    case Broadcast => row.txId.Some? && row.from.Some?
    case Settled => row.txId.Some? && row.from.Some?
    case Failed => false
  }

  /** Neither null nor the empty string. */
  predicate Truthy(s: Option<string>) { s.Some? && s.value != "" }

  // ---------------------------------------------------------------- machine

  datatype Params = Params(payout: Payout, requester: Option<string>)

  datatype PC =
    | LoadForApproval(approver: string)
    | WriteApproval(approver: string, row: Row)
    | ReadApprovals
    | InsertIntent
    | LoadIntent
    | CheckPolicy(row: Row)
    | AcquireLease
    | GatherLegs
    | SetFromAddress(legs: nat, from: string)
    | LockFunds(legs: nat)
    | SendLegs(legs: nat, sent: nat, txId: string)
    | MarkBroadcast(txId: string)
    | PostSettle(resumed: bool)
    | MarkSettled(resumed: bool)
    | SweepFees(leg: nat)
    | ReleaseLease

  /** One call: its key, the approvals it was given, when its `payout` began, and the
      await it is about to make. */
  datatype Call = Call(key: string, approvals: seq<string>, startedAt: int, pc: PC)

  datatype Send = Send(key: string, leg: nat, at: int)

  datatype State = State(book: Book, rows: Rows, approvals: map<string, seq<string>>,
                         calls: map<nat, Call>, sends: seq<Send>, now: int)

  /** What the world answers at an await. */
  datatype Answer = Answer(ok: bool, ports: Ports, legs: nat, text: string, amount: int)

  datatype Action =
    | StartPayout(call: nat, key: string)
    | StartApprove(call: nat, key: string, approver: string)
    | Advance(call: nat, answer: Answer)
    | Crash(call: nat)
    | Tick(ms: nat)
    | Ledger(event: Event)

  function ApproversFor(s: State, key: string): seq<string>
  {
    if key in s.approvals then s.approvals[key] else []
  }

  function Goto(s: State, id: nat, pc: PC): State
    requires id in s.calls
  {
    s.(calls := s.calls[id := s.calls[id].(pc := pc)])
  }

  function Finish(s: State, id: nat): State { s.(calls := s.calls - {id}) }

  /** Deposits, quarantines, releases, reversals and console sweeps, none of which is part
      of a payout. */
  predicate Outside(e: Event) { Legal(e) && !e.Lock? && !e.Settle? && (e.SweepFee? ==> e.sweepKey.SweepKey?) }

  datatype World = World(config: PolicyConfig, params: string -> Params)

  function Init(): State { State(EMPTY, map[], map[], map[], [], 0) }

  function Do(w: World, s: State, a: Action): State
  {
    match a
    case StartPayout(id, key) =>
      if id in s.calls then s else s.(calls := s.calls[id := Call(key, [], s.now, InsertIntent)])
    case StartApprove(id, key, approver) =>
      if id in s.calls then s else s.(calls := s.calls[id := Call(key, [], s.now, LoadForApproval(approver))])
    case Advance(id, answer) => if id in s.calls then Step(w, s, id, answer) else s
    case Crash(id) => Finish(s, id)
    case Tick(ms) => s.(now := s.now + ms)
    case Ledger(e) => if Outside(e) then s.(book := Apply(s.book, e)) else s
  }

  /** The await the call is about to make, and where it leaves the call. A call that
      throws releases what it holds and ends. */
  function Step(w: World, s: State, id: nat, answer: Answer): State
    requires id in s.calls
  {
    var c := s.calls[id];
    var p := w.params(c.key);
    match c.pc
    case LoadForApproval(approver) =>
      if c.key !in s.rows || s.rows[c.key].status == Settled then Finish(s, id)
      else Goto(s, id, WriteApproval(approver, s.rows[c.key]))
    case WriteApproval(approver, row) =>
      var rows := RecordApproval(ApproversFor(s, c.key), approver, row.requestedBy);
      if rows.None? then Finish(s, id)
      else Goto(s.(approvals := s.approvals[c.key := rows.value]), id, ReadApprovals)
    case ReadApprovals =>
      s.(calls := s.calls[id := Call(c.key, ApproversFor(s, c.key), s.now, InsertIntent)])
    case InsertIntent => Goto(s.(rows := Begin(s.rows, c.key, p.requester, s.now)), id, LoadIntent)
    case LoadIntent =>
      if c.key !in s.rows then Finish(s, id)
      else
        var row := s.rows[c.key];
        if row.status == Settled && Truthy(row.txId) then Finish(s, id)
        else if row.status == Broadcast && Truthy(row.txId) && Truthy(row.from) then Goto(s, id, PostSettle(true))
        else Goto(s, id, CheckPolicy(row))
    case CheckPolicy(row) =>
      var ctx := Context(p.payout.amount, p.requester, c.approvals, row.createdAt);
      if Evaluate(w.config, answer.ports, ctx, c.startedAt).Allow? then Goto(s, id, AcquireLease) else Finish(s, id)
    case AcquireLease => if answer.ok then Goto(s, id, GatherLegs) else Finish(s, id)
    case GatherLegs => if answer.ok then Goto(s, id, SetFromAddress(answer.legs, answer.text)) else Finish(s, id)
    case SetFromAddress(legs, from) => Goto(s.(rows := SetFrom(s.rows, c.key, from)), id, LockFunds(legs))
    case LockFunds(legs) =>
      if LockSucceeds(s, p.payout) then
        Goto(s.(book := Apply(s.book, Lock(c.key, p.payout))), id, SendLegs(legs, 0, ""))
      else Finish(s, id)
    case SendLegs(legs, sent, txId) =>
      if sent >= legs then Goto(s, id, MarkBroadcast(txId))
      else
        var t := s.(sends := s.sends + [Send(c.key, sent, s.now)]);
        if !answer.ok then Finish(t, id)
        else Goto(t, id, SendLegs(legs, sent + 1, if sent == 0 then answer.text else txId))
    case MarkBroadcast(txId) => Goto(s.(rows := SetBroadcast(s.rows, c.key, txId)), id, PostSettle(false))
    case PostSettle(resumed) =>
      Goto(s.(book := Apply(s.book, Settle(c.key, p.payout, None))), id, MarkSettled(resumed))
    case MarkSettled(resumed) =>
      var t := s.(rows := SetSettled(s.rows, c.key));
      if resumed then Finish(t, id) else Goto(t, id, SweepFees(0))
    case SweepFees(leg) =>
      if !answer.ok then Goto(s, id, ReleaseLease)
      else Goto(s.(book := Apply(s.book, SweepFee(FeeKey(c.key, leg), p.payout.merchant, p.payout.chain,
                                                   p.payout.asset, answer.amount, None))), id, SweepFees(leg + 1))
    case ReleaseLease => Finish(s, id)
  }

  /** `lockPayout` goes through: the available balance covers the amount, whether or not
      the lock is already in the journal. */
  predicate LockSucceeds(s: State, p: Payout)
  {
    0 < p.amount <= Owed(s.book.journal, MerchantAvailable(p.tenant, p.merchant), p.asset)
  }

  function RunActions(w: World, actions: seq<Action>): State
  {
    if actions == [] then Init() else Do(w, RunActions(w, actions[..|actions| - 1]), actions[|actions| - 1])
  }

  // -------------------------------------------------------------- invariant

  ghost predicate HasLock(b: Book, key: string) { LockKey(key) in Keys(b.journal) }

  ghost predicate HasSettle(b: Book, key: string) { SettleKey(key) in Keys(b.journal) }

  /** The call has passed its lock. */
  predicate PastLock(pc: PC)
  {
    pc.SendLegs? || pc.MarkBroadcast? || pc.PostSettle? || pc.MarkSettled? || pc.SweepFees? || pc.ReleaseLease?
  }

  /** The call has written its source address, its transaction, its settlement. */
  predicate PastFrom(pc: PC) { pc.LockFunds? || PastLock(pc) }

  predicate PastBroadcast(pc: PC) { pc.PostSettle? || PastSettle(pc) }

  predicate PastSettle(pc: PC) { pc.MarkSettled? || pc.SweepFees? || pc.ReleaseLease? }

  /** The call has passed the policy check. */
  predicate PastPolicy(pc: PC)
  {
    pc.AcquireLease? || pc.GatherLegs? || pc.SetFromAddress? || pc.LockFunds? || pc.SendLegs?
  }

  /** Every payout entry in the books carries the parameters of its key, and a settlement
      has its lock. */
  ghost predicate BookOk(w: World, b: Book)
  {
    && LedgerRuns.Inv(b)
    && (forall i :: 0 <= i < |b.events| ==> EventOk(w, b, b.events[i]))
  }

  ghost predicate EventOk(w: World, b: Book, e: Event)
  {
    && (e.Lock? ==> e.payout == w.params(e.key).payout)
    && (e.Settle? ==> e.payout == w.params(e.key).payout && e.networkFee == None && HasLock(b, e.key))
  }

  /** A transaction id or a final status on a row means that the payout was locked, and
      `settled` that it was settled in the ledger. */
  ghost predicate RowOk(w: World, s: State, key: string)
    requires key in s.rows
  {
    var row := s.rows[key];
    && StatusOk(row) && (row.txId.Some? ==> HasLock(s.book, key))
    && (row.status == Settled ==> HasSettle(s.book, key))
    && row.requestedBy == w.params(key).requester && row.createdAt <= s.now
  }

  /** The gates that the call's key has to pass are open, for the approvers recorded so
      far and the time it is now. */
  ghost predicate Cleared(w: World, s: State, key: string)
  {
    key in s.rows
    && var p := w.params(key);
       var ctx := Context(p.payout.amount, p.requester, ApproversFor(s, key), s.rows[key].createdAt);
       ApprovalMet(w.config, ctx) && TimeLockMet(w.config, ctx, s.now)
  }

  ghost predicate CallOk(w: World, s: State, c: Call)
  {
    && c.startedAt <= s.now
    && (forall a :: a in c.approvals ==> a in ApproversFor(s, c.key))
    && (c.pc.WriteApproval? ==> c.pc.row.requestedBy == w.params(c.key).requester)
    && (c.pc.CheckPolicy? ==> c.key in s.rows && c.pc.row.createdAt == s.rows[c.key].createdAt)
    && (PastLock(c.pc) ==> HasLock(s.book, c.key))
    && (PastFrom(c.pc) ==> c.key in s.rows && s.rows[c.key].from.Some?)
    && (PastBroadcast(c.pc) ==> c.key in s.rows && s.rows[c.key].txId.Some?)
    && (PastSettle(c.pc) ==> HasSettle(s.book, c.key))
    && (PastPolicy(c.pc) ==> Cleared(w, s, c.key))
  }

  ghost predicate Ok(w: World, s: State)
  {
    && BookOk(w, s.book)
    && (forall k :: k in s.rows ==> RowOk(w, s, k))
    && (forall k :: k in s.approvals ==> ProperRows(s.approvals[k], w.params(k).requester))
    && (forall i :: i in s.calls ==> CallOk(w, s, s.calls[i]))
    && (forall i :: 0 <= i < |s.sends| ==> SendOk(w, s, s.sends[i]))
  }

  /** What is true of every transfer ever handed to a broadcaster: the funds were locked,
      enough distinct approvers other than the requester are on record, and the time-lock
      counted from the first request had run out when it was sent. */
  ghost predicate SendOk(w: World, s: State, x: Send)
  {
    && x.at <= s.now && HasLock(s.book, x.key) && x.key in s.rows
    && var p := w.params(x.key);
       var ctx := Context(p.payout.amount, p.requester, ApproversFor(s, x.key), s.rows[x.key].createdAt);
       ApprovalMet(w.config, ctx) && TimeLockMet(w.config, ctx, x.at)
  }

  // ------------------------------------------------------------ preservation

  /** Shared state only grows: rows keep their origin, approvals and entries stay, and
      time does not go back. */
  ghost predicate Grows(s: State, t: State)
  {
    && s.now <= t.now && Keys(s.book.journal) <= Keys(t.book.journal)
    && RowsKept(s.rows, t.rows)
    && (forall k, a :: a in ApproversFor(s, k) ==> a in ApproversFor(t, k))
  }

  lemma {:induction false} GatesStayOpen(w: World, s: State, t: State, key: string, at: int, later: int)
    requires Grows(s, t) && key in s.rows && at <= later
    requires var p := w.params(key);
      var ctx := Context(p.payout.amount, p.requester, ApproversFor(s, key), s.rows[key].createdAt);
      ApprovalMet(w.config, ctx) && TimeLockMet(w.config, ctx, at)
    ensures var p := w.params(key);
      var ctx := Context(p.payout.amount, p.requester, ApproversFor(t, key), t.rows[key].createdAt);
      ApprovalMet(w.config, ctx) && TimeLockMet(w.config, ctx, later)
  {
    CountingWithin(ApproversFor(s, key), ApproversFor(t, key), w.params(key).requester);
  }

  lemma {:induction false} CallOkGrows(w: World, s: State, t: State, c: Call)
    requires Grows(s, t) && CallOk(w, s, c)
    ensures CallOk(w, t, c)
  {
    if PastPolicy(c.pc) { GatesStayOpen(w, s, t, c.key, s.now, t.now); }
  }

  lemma {:induction false} SendOkGrows(w: World, s: State, t: State, x: Send)
    requires Grows(s, t) && SendOk(w, s, x)
    ensures SendOk(w, t, x)
  {
    GatesStayOpen(w, s, t, x.key, x.at, x.at);
  }

  /** A change of shared state that only grows keeps the invariant, once the changed parts
      are in order. */
  lemma {:induction false} GrowsOk(w: World, s: State, t: State)
    requires Ok(w, s) && Grows(s, t) && t.calls == s.calls && s.sends <= t.sends
    requires BookOk(w, t.book)
    requires forall k :: k in t.rows ==> RowOk(w, t, k)
    requires forall k :: k in t.approvals ==> ProperRows(t.approvals[k], w.params(k).requester)
    requires forall i :: |s.sends| <= i < |t.sends| ==> SendOk(w, t, t.sends[i])
    ensures Ok(w, t)
  {
    forall i | i in t.calls ensures CallOk(w, t, t.calls[i]) {
      CallOkGrows(w, s, t, s.calls[i]);
    }
    forall i | 0 <= i < |t.sends| ensures SendOk(w, t, t.sends[i]) {
      if i < |s.sends| {
        assert t.sends[i] == s.sends[i];
        SendOkGrows(w, s, t, s.sends[i]);
      }
    }
  }

  lemma {:induction false} GotoOk(w: World, s: State, id: nat, pc: PC)
    requires Ok(w, s) && id in s.calls && CallOk(w, s, s.calls[id].(pc := pc))
    ensures Ok(w, Goto(s, id, pc))
  {
    CallsOk(w, s, s.calls[id := s.calls[id].(pc := pc)]);
  }

  /** The row holds what a call at this await has written. */
  ghost predicate Written(rows: Rows, key: string, pc: PC)
  {
    && (PastFrom(pc) ==> key in rows && rows[key].from.Some?)
    && (PastBroadcast(pc) ==> key in rows && rows[key].txId.Some?)
  }

  /** Moving a call on to an await that needs no row of its own. */
  lemma {:induction false} MoveOnOk(w: World, s: State, id: nat, pc: PC)
    requires Ok(w, s) && id in s.calls && !pc.WriteApproval? && !pc.CheckPolicy?
    requires PastLock(pc) ==> HasLock(s.book, s.calls[id].key)
    requires PastSettle(pc) ==> HasSettle(s.book, s.calls[id].key)
    requires Written(s.rows, s.calls[id].key, pc)
    requires PastPolicy(pc) ==> PastPolicy(s.calls[id].pc)
    ensures Ok(w, Goto(s, id, pc))
  {
    assert CallOk(w, s, s.calls[id]);
    GotoOk(w, s, id, pc);
  }

  lemma {:induction false} FinishOk(w: World, s: State, id: nat)
    requires Ok(w, s)
    ensures Ok(w, Finish(s, id))
  {
    CallsOk(w, s, s.calls - {id});
  }

  /** Nothing but a call's own invariant depends on the calls. */
  lemma {:induction false} CallsOk(w: World, s: State, calls: map<nat, Call>)
    requires Ok(w, s) && forall i :: i in calls ==> CallOk(w, s, calls[i])
    ensures Ok(w, s.(calls := calls))
  {
    var t := s.(calls := calls);
    assert Grows(s, t);
    forall k | k in t.rows ensures RowOk(w, t, k) { assert RowOk(w, s, k); }
    forall i | i in calls ensures CallOk(w, t, calls[i]) { CallOkGrows(w, s, t, calls[i]); }
    forall i | 0 <= i < |t.sends| ensures SendOk(w, t, t.sends[i]) { SendOkGrows(w, s, t, t.sends[i]); }
  }

  // ------------------------------------------------------------------ ledger

  lemma {:induction false} ApplyAppends(b: Book, e: Event)
    ensures Apply(b, e) == b || exists entry :: Apply(b, e) == Book(b.journal + [entry], b.events + [e])
  {
  }

  lemma {:induction false} AppendedKeys(b: Book, entry: Entry, e: Event)
    ensures Keys(b.journal) <= Keys(Book(b.journal + [entry], b.events + [e]).journal)
  {
    var j := b.journal + [entry];
    forall k | k in Keys(b.journal) ensures k in Keys(j) {
      var i :| 0 <= i < |b.journal| && b.journal[i].key == k;
      assert j[i].key == k;
    }
  }

  lemma {:induction false} ApplyBookOk(w: World, b: Book, e: Event)
    requires BookOk(w, b) && Legal(e) && EventOk(w, b, e)
    ensures BookOk(w, Apply(b, e)) && Keys(b.journal) <= Keys(Apply(b, e).journal)
  {
    ApplyKeepsInv(b, e);
    ApplyAppends(b, e);
    var c := Apply(b, e);
    if c != b {
      var entry :| c == Book(b.journal + [entry], b.events + [e]);
      AppendedKeys(b, entry, e);
      forall i | 0 <= i < |c.events| ensures EventOk(w, c, c.events[i]) {
        if i < |b.events| { assert EventOk(w, b, b.events[i]); }
      }
    }
  }

  lemma {:induction false} LedgerOk(w: World, s: State, e: Event)
    requires Ok(w, s) && Legal(e) && EventOk(w, s.book, e)
    ensures Ok(w, s.(book := Apply(s.book, e)))
    ensures Keys(s.book.journal) <= Keys(Apply(s.book, e).journal)
  {
    var t := s.(book := Apply(s.book, e));
    ApplyBookOk(w, s.book, e);
    forall k | k in t.rows ensures RowOk(w, t, k) { assert RowOk(w, s, k); }
    GrowsOk(w, s, t);
  }

  /** A lock that succeeds is in the journal afterwards. */
  lemma {:induction false} LockLands(s: State, key: string, p: Payout)
    requires LockSucceeds(s, p)
    ensures HasLock(Apply(s.book, Lock(key, p)), key)
  {
    var e := Lock(key, p);
    var entry := Build(e).value;
    assert Apply(s.book, e) == Post(s.book, e, entry);
    RecordedKeys(s.book.journal, entry);
  }

  /** A locked payout had a positive amount. */
  lemma {:induction false} LockedAmount(w: World, b: Book, key: string)
    requires BookOk(w, b) && HasLock(b, key)
    ensures w.params(key).payout.amount > 0
  {
    var i :| 0 <= i < |b.journal| && b.journal[i].key == LockKey(key);
    assert Explained(b, i) && EventOk(w, b, b.events[i]);
  }

  /** Its settlement is in the journal afterwards. */
  lemma {:induction false} SettleLands(w: World, b: Book, key: string)
    requires BookOk(w, b) && HasLock(b, key)
    ensures HasSettle(Apply(b, Settle(key, w.params(key).payout, None)), key)
  {
    LockedAmount(w, b, key);
    var e := Settle(key, w.params(key).payout, None);
    var entry := Build(e).value;
    assert Apply(b, e) == Post(b, e, entry);
    RecordedKeys(b.journal, entry);
  }

  // -------------------------------------------------------------------- rows

  lemma {:induction false} RowsOk(w: World, s: State, rows: Rows)
    requires Ok(w, s)
    requires RowsKept(s.rows, rows)
    requires forall k :: k in rows ==> RowOk(w, s.(rows := rows), k)
    ensures Ok(w, s.(rows := rows))
  {
    GrowsOk(w, s, s.(rows := rows));
  }

  lemma {:induction false} BeginOk(w: World, s: State, key: string)
    requires Ok(w, s)
    ensures Ok(w, s.(rows := Begin(s.rows, key, w.params(key).requester, s.now)))
  {
    var rows := Begin(s.rows, key, w.params(key).requester, s.now);
    forall k | k in rows ensures RowOk(w, s.(rows := rows), k) {
      if k in s.rows { assert RowOk(w, s, k); }
    }
    RowsOk(w, s, rows);
  }

  /** Updating the row of a locked payout without touching its origin. */
  lemma {:induction false} RowOkUpdated(w: World, s: State, key: string, row: Row)
    requires Ok(w, s) && key in s.rows
    requires RowKept(s.rows[key], row) && StatusOk(row)
    requires HasLock(s.book, key) || row.txId == s.rows[key].txId
    requires row.status == Settled ==> HasSettle(s.book, key)
    ensures Ok(w, s.(rows := s.rows[key := row]))
  {
    var rows := s.rows[key := row];
    forall k | k in rows ensures RowOk(w, s.(rows := rows), k) { assert RowOk(w, s, k); }
    RowsOk(w, s, rows);
  }

  // ------------------------------------------------------------------- steps

  lemma {:induction false} WriteApprovalOk(w: World, s: State, id: nat, approver: string, row: Row)
    requires Ok(w, s) && id in s.calls && s.calls[id].pc == WriteApproval(approver, row)
    ensures var key := s.calls[id].key;
      var rows := RecordApproval(ApproversFor(s, key), approver, row.requestedBy);
      rows.Some? ==> Ok(w, Goto(s.(approvals := s.approvals[key := rows.value]), id, ReadApprovals))
  {
    var key := s.calls[id].key;
    assert CallOk(w, s, s.calls[id]);
    var rows := RecordApproval(ApproversFor(s, key), approver, row.requestedBy);
    if rows.Some? {
      RecordApprovalKeeps(ApproversFor(s, key), approver, row.requestedBy);
      var t := s.(approvals := s.approvals[key := rows.value]);
      forall k | k in t.rows ensures RowOk(w, t, k) { assert RowOk(w, s, k); }
      GrowsOk(w, s, t);
      GotoOk(w, t, id, ReadApprovals);
    }
  }

  lemma {:induction false} CheckPolicyOk(w: World, s: State, id: nat, ports: Ports)
    requires Ok(w, s) && id in s.calls && s.calls[id].pc.CheckPolicy?
    requires var c := s.calls[id];
      var p := w.params(c.key);
      Evaluate(w.config, ports, Context(p.payout.amount, p.requester, c.approvals, c.pc.row.createdAt),
        c.startedAt).Allow?
    ensures Ok(w, Goto(s, id, AcquireLease))
  {
    var c := s.calls[id];
    assert CallOk(w, s, c);
    CountingWithin(c.approvals, ApproversFor(s, c.key), w.params(c.key).requester);
    assert Cleared(w, s, c.key);
    GotoOk(w, s, id, AcquireLease);
  }

  lemma {:induction false} SendOkStep(w: World, s: State, id: nat)
    requires Ok(w, s) && id in s.calls && s.calls[id].pc.SendLegs?
    ensures Ok(w, s.(sends := s.sends + [Send(s.calls[id].key, s.calls[id].pc.sent, s.now)]))
  {
    var c := s.calls[id];
    assert CallOk(w, s, c);
    var t := s.(sends := s.sends + [Send(c.key, c.pc.sent, s.now)]);
    forall k | k in t.rows ensures RowOk(w, t, k) { assert RowOk(w, s, k); }
    assert SendOk(w, t, Send(c.key, c.pc.sent, s.now));
    GrowsOk(w, s, t);
  }

  lemma {:induction false} LoadForApprovalOk(w: World, s: State, id: nat, answer: Answer)
    requires Ok(w, s) && id in s.calls && s.calls[id].pc.LoadForApproval?
    ensures Ok(w, Step(w, s, id, answer))
  {
    var c := s.calls[id];
    assert CallOk(w, s, c);
    FinishOk(w, s, id);
    if c.key in s.rows {
      assert RowOk(w, s, c.key);
      GotoOk(w, s, id, WriteApproval(c.pc.approver, s.rows[c.key]));
    }
  }

  lemma {:induction false} InsertIntentOk(w: World, s: State, id: nat, answer: Answer)
    requires Ok(w, s) && id in s.calls && s.calls[id].pc.InsertIntent?
    ensures Ok(w, Step(w, s, id, answer))
  {
    var c := s.calls[id];
    assert CallOk(w, s, c);
    BeginOk(w, s, c.key);
    MoveOnOk(w, s.(rows := Begin(s.rows, c.key, w.params(c.key).requester, s.now)), id, LoadIntent);
  }

  lemma {:induction false} LoadIntentOk(w: World, s: State, id: nat, answer: Answer)
    requires Ok(w, s) && id in s.calls && s.calls[id].pc.LoadIntent?
    ensures Ok(w, Step(w, s, id, answer))
  {
    var c := s.calls[id];
    assert CallOk(w, s, c);
    FinishOk(w, s, id);
    if c.key in s.rows {
      var row := s.rows[c.key];
      assert RowOk(w, s, c.key);
      if row.txId.Some? { GotoOk(w, s, id, PostSettle(true)); }
      GotoOk(w, s, id, CheckPolicy(row));
    }
  }

  lemma {:induction false} SetFromOk(w: World, s: State, id: nat, answer: Answer)
    requires Ok(w, s) && id in s.calls && s.calls[id].pc.SetFromAddress?
    ensures Ok(w, Step(w, s, id, answer))
  {
    var c := s.calls[id];
    assert CallOk(w, s, c);
    RowOkUpdated(w, s, c.key, s.rows[c.key].(from := Some(c.pc.from), status := Broadcasting));
    MoveOnOk(w, s.(rows := SetFrom(s.rows, c.key, c.pc.from)), id, LockFunds(c.pc.legs));
  }

  lemma {:induction false} LockFundsOk(w: World, s: State, id: nat, answer: Answer)
    requires Ok(w, s) && id in s.calls && s.calls[id].pc.LockFunds?
    ensures Ok(w, Step(w, s, id, answer))
  {
    var c := s.calls[id];
    assert CallOk(w, s, c);
    FinishOk(w, s, id);
    var e := Lock(c.key, w.params(c.key).payout);
    if LockSucceeds(s, e.payout) {
      LedgerOk(w, s, e);
      LockLands(s, c.key, e.payout);
      MoveOnOk(w, s.(book := Apply(s.book, e)), id, SendLegs(c.pc.legs, 0, ""));
    }
  }

  lemma {:induction false} SentOnOk(w: World, t: State, id: nat, next: PC)
    requires Ok(w, t) && id in t.calls && t.calls[id].pc.SendLegs? && next.SendLegs?
    ensures Ok(w, Goto(t, id, next))
  {
    assert CallOk(w, t, t.calls[id]);
    MoveOnOk(w, t, id, next);
  }

  lemma {:induction false} SendLegsOk(w: World, s: State, id: nat, answer: Answer)
    requires Ok(w, s) && id in s.calls && s.calls[id].pc.SendLegs?
    ensures Ok(w, Step(w, s, id, answer))
  {
    var c := s.calls[id];
    assert CallOk(w, s, c);
    if c.pc.sent >= c.pc.legs {
      MoveOnOk(w, s, id, MarkBroadcast(c.pc.txId));
    } else {
      var next := SendLegs(c.pc.legs, c.pc.sent + 1, if c.pc.sent == 0 then answer.text else c.pc.txId);
      var t := s.(sends := s.sends + [Send(c.key, c.pc.sent, s.now)]);
      SendOneOk(w, s, id, t, next);
      assert Step(w, s, id, answer) == if answer.ok then Goto(t, id, next) else Finish(t, id);
    }
  }

  lemma {:induction false} SendOneOk(w: World, s: State, id: nat, t: State, next: PC)
    requires Ok(w, s) && id in s.calls && s.calls[id].pc.SendLegs? && next.SendLegs?
    requires var c := s.calls[id]; t == s.(sends := s.sends + [Send(c.key, c.pc.sent, s.now)])
    ensures Ok(w, Finish(t, id)) && Ok(w, Goto(t, id, next))
  {
    SendOkStep(w, s, id);
    FinishOk(w, t, id);
    SentOnOk(w, t, id, next);
  }

  lemma {:induction false} MarkBroadcastOk(w: World, s: State, id: nat, answer: Answer)
    requires Ok(w, s) && id in s.calls && s.calls[id].pc.MarkBroadcast?
    ensures Ok(w, Step(w, s, id, answer))
  {
    var c := s.calls[id];
    assert CallOk(w, s, c);
    var txId := c.pc.txId;
    if c.key in s.rows { RowOkUpdated(w, s, c.key, s.rows[c.key].(txId := Some(txId), status := Broadcast)); }
    MoveOnOk(w, s.(rows := SetBroadcast(s.rows, c.key, txId)), id, PostSettle(false));
  }

  lemma {:induction false} PostSettleOk(w: World, s: State, id: nat, answer: Answer)
    requires Ok(w, s) && id in s.calls && s.calls[id].pc.PostSettle?
    ensures Ok(w, Step(w, s, id, answer))
  {
    var c := s.calls[id];
    assert CallOk(w, s, c);
    var e := Settle(c.key, w.params(c.key).payout, None);
    LedgerOk(w, s, e);
    SettleLands(w, s.book, c.key);
    MoveOnOk(w, s.(book := Apply(s.book, e)), id, MarkSettled(c.pc.resumed));
  }

  lemma {:induction false} MarkSettledOk(w: World, s: State, id: nat, answer: Answer)
    requires Ok(w, s) && id in s.calls && s.calls[id].pc.MarkSettled?
    ensures Ok(w, Step(w, s, id, answer))
  {
    var c := s.calls[id];
    assert CallOk(w, s, c);
    if c.key in s.rows { RowOkUpdated(w, s, c.key, s.rows[c.key].(status := Settled)); }
    var t := s.(rows := SetSettled(s.rows, c.key));
    if c.pc.resumed { FinishOk(w, t, id); } else { MoveOnOk(w, t, id, SweepFees(0)); }
  }

  lemma {:induction false} FeeLegOk(w: World, s: State, id: nat, e: Event)
    requires Ok(w, s) && id in s.calls && s.calls[id].pc.SweepFees? && e.SweepFee? && Legal(e)
    ensures Ok(w, Goto(s.(book := Apply(s.book, e)), id, SweepFees(s.calls[id].pc.leg + 1)))
  {
    assert CallOk(w, s, s.calls[id]);
    LedgerOk(w, s, e);
    MoveOnOk(w, s.(book := Apply(s.book, e)), id, SweepFees(s.calls[id].pc.leg + 1));
  }

  lemma {:induction false} SweepFeesOk(w: World, s: State, id: nat, answer: Answer)
    requires Ok(w, s) && id in s.calls && s.calls[id].pc.SweepFees?
    ensures Ok(w, Step(w, s, id, answer))
  {
    var c := s.calls[id];
    assert CallOk(w, s, c);
    if answer.ok {
      var p := w.params(c.key).payout;
      var e := SweepFee(FeeKey(c.key, c.pc.leg), p.merchant, p.chain, p.asset, answer.amount, None);
      FeeLegOk(w, s, id, e);
      assert Step(w, s, id, answer) == Goto(s.(book := Apply(s.book, e)), id, SweepFees(c.pc.leg + 1));
    } else {
      MoveOnOk(w, s, id, ReleaseLease);
    }
  }

  lemma {:induction false} LocalStepOk(w: World, s: State, id: nat, answer: Answer)
    requires Ok(w, s) && id in s.calls
    requires var pc := s.calls[id].pc; pc.CheckPolicy? || pc.AcquireLease? || pc.GatherLegs? || pc.ReadApprovals?
    ensures Ok(w, Step(w, s, id, answer))
  {
    var c := s.calls[id];
    assert CallOk(w, s, c);
    FinishOk(w, s, id);
    match c.pc
    case CheckPolicy(row) =>
      if Step(w, s, id, answer) != Finish(s, id) { CheckPolicyOk(w, s, id, answer.ports); }
    case AcquireLease => GotoOk(w, s, id, GatherLegs);
    case GatherLegs => GotoOk(w, s, id, SetFromAddress(answer.legs, answer.text));
    case ReadApprovals => CallsOk(w, s, s.calls[id := Call(c.key, ApproversFor(s, c.key), s.now, InsertIntent)]);
  }

  /** Every await of every call keeps the invariant. */
  lemma {:induction false} StepOk(w: World, s: State, id: nat, answer: Answer)
    requires Ok(w, s) && id in s.calls
    ensures Ok(w, Step(w, s, id, answer))
  {
    FinishOk(w, s, id);
    match s.calls[id].pc
    case LoadForApproval(_) => LoadForApprovalOk(w, s, id, answer);
    case WriteApproval(approver, row) => WriteApprovalOk(w, s, id, approver, row);
    case InsertIntent => InsertIntentOk(w, s, id, answer);
    case LoadIntent => LoadIntentOk(w, s, id, answer);
    case SetFromAddress(_, _) => SetFromOk(w, s, id, answer);
    case LockFunds(_) => LockFundsOk(w, s, id, answer);
    case SendLegs(_, _, _) => SendLegsOk(w, s, id, answer);
    case MarkBroadcast(_) => MarkBroadcastOk(w, s, id, answer);
    case PostSettle(_) => PostSettleOk(w, s, id, answer);
    case MarkSettled(_) => MarkSettledOk(w, s, id, answer);
    case SweepFees(_) => SweepFeesOk(w, s, id, answer);
    case ReleaseLease =>
    case _ => LocalStepOk(w, s, id, answer);
  }

  lemma {:induction false} DoOk(w: World, s: State, a: Action)
    requires Ok(w, s)
    ensures Ok(w, Do(w, s, a))
  {
    match a
    case StartPayout(id, key) => CallsOk(w, s, s.calls[id := Call(key, [], s.now, InsertIntent)]);
    case StartApprove(id, key, approver) =>
      CallsOk(w, s, s.calls[id := Call(key, [], s.now, LoadForApproval(approver))]);
    case Advance(id, answer) =>
      if id in s.calls {
        StepOk(w, s, id, answer);
      }
    case Crash(id) => FinishOk(w, s, id);
    case Tick(ms) =>
      var t := s.(now := s.now + ms);
      forall k | k in t.rows ensures RowOk(w, t, k) { assert RowOk(w, s, k); }
      GrowsOk(w, s, t);
    case Ledger(e) => if Outside(e) { LedgerOk(w, s, e); }
  }

  /** The invariant holds in every state of every run. */
  lemma {:induction false} RunOk(w: World, actions: seq<Action>)
    ensures Ok(w, RunActions(w, actions))
  {
    if actions != [] {
      RunOk(w, actions[..|actions| - 1]);
      DoOk(w, RunActions(w, actions[..|actions| - 1]), actions[|actions| - 1]);
    }
  }

  // ------------------------------------------------------ what the intents promise

  /** What an await writes to the table. */
  function WrittenRows(w: World, s: State, c: Call): Rows
  {
    match c.pc
    case InsertIntent => Begin(s.rows, c.key, w.params(c.key).requester, s.now)
    case SetFromAddress(_, from) => SetFrom(s.rows, c.key, from)
    case MarkBroadcast(txId) => SetBroadcast(s.rows, c.key, txId)
    case MarkSettled(_) => SetSettled(s.rows, c.key)
    case _ => s.rows
  }

  lemma {:induction false} StepRows(w: World, s: State, id: nat, answer: Answer)
    requires id in s.calls
    ensures Step(w, s, id, answer).rows == WrittenRows(w, s, s.calls[id])
  {
    match s.calls[id].pc
    case InsertIntent =>
    case SetFromAddress(_, _) =>
    case MarkBroadcast(_) =>
    case MarkSettled(_) =>
    case SendLegs(_, _, _) =>
    case _ => assert Step(w, s, id, answer).rows == s.rows;
  }

  lemma {:induction false} StepKeepsRows(w: World, s: State, id: nat, answer: Answer)
    requires id in s.calls
    ensures RowsKept(s.rows, Step(w, s, id, answer).rows)
  {
    StepRows(w, s, id, answer);
  }

  /** Over any stretch of any run no intent is lost, none changes its requester or its first
      request time, and none loses a source or a transaction. */
  lemma {:induction false} RowsKeptOverRuns(w: World, actions: seq<Action>, n: nat)
    requires n <= |actions|
    ensures RowsKept(RunActions(w, actions[..n]).rows, RunActions(w, actions).rows)
  {
    if n == |actions| {
      assert actions[..n] == actions;
    } else {
      var before := actions[..|actions| - 1];
      RowsKeptOverRuns(w, before, n);
      assert before[..n] == actions[..n];
      var s, a := RunActions(w, before), actions[|actions| - 1];
      if a.Advance? && a.call in s.calls { StepKeepsRows(w, s, a.call, a.answer); }
    }
  }

  /** The table tells the truth in every state of every run: `locked` means that nothing was
      written yet, a transaction means that the funds are locked in the ledger, `settled`
      that they are settled there, and no intent is ever `failed`. */
  lemma {:induction false} RowsTellTheTruth(w: World, actions: seq<Action>, key: string)
    requires key in RunActions(w, actions).rows
    ensures var s := RunActions(w, actions);
      var row := s.rows[key];
      && StatusOk(row) && row.requestedBy == w.params(key).requester && row.createdAt <= s.now
      && (row.txId.Some? ==> HasLock(s.book, key)) && (row.status == Settled ==> HasSettle(s.book, key))
  {
    RunOk(w, actions);
    assert RowOk(w, RunActions(w, actions), key);
  }
}
