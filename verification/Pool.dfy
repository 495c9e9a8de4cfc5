/** Deposit-address pool (backend/src/attribution/pool-manager.ts, pool-state.ts,
    backend/src/queries/pool-address.queries.ts, backend/src/stores/pool.store.ts,
    backend/src/schemas/sql/pool.schema.ts): any number of calls interleaved query by
    query. Addresses are derived from one extended public key. */
module Pool {
  import opened Wrappers

  datatype PoolState = Available | Reserved | InUse | Cooling

  datatype PoolAction = Reserve | Detect | Cool | Release

  /** `nextPoolState`: None is the exception for a transition that is not in the table. */
  function NextPoolState(current: PoolState, action: PoolAction): Option<PoolState>
  {
    match (action, current)
    case (Reserve, Available) => Some(Reserved)
    case (Detect, Reserved) => Some(InUse)
    case (Cool, InUse) => Some(Cooling)
    case (Release, Cooling) => Some(Available)
    case (Release, Reserved) => Some(Available)
    case _ => None
  }

  datatype Owner = Owner(tenant: string, merchant: string, chain: string)

  datatype Row = Row(owner: Owner, derivationIndex: nat, address: string, strategy: string,
                     state: PoolState, invoice: Option<string>, cooldown: Option<int>)

  type Derive = (string, nat) -> string

  // ----------------------------------------------------------------- queries

  /** Rows on a chain. */
  function CountOn(rows: seq<Row>, chain: string): nat
  {
    if rows == [] then 0
    else CountOn(rows[..|rows| - 1], chain) + if rows[|rows| - 1].owner.chain == chain then 1 else 0
  }

  /** `COALESCE(MAX(derivation_index) + 1, 0)` on a chain. */
  function NextIndex(rows: seq<Row>, chain: string): nat
  {
    if rows == [] then 0
    else
      var rest, last := NextIndex(rows[..|rows| - 1], chain), rows[|rows| - 1];
      if last.owner.chain == chain && last.derivationIndex + 1 > rest then last.derivationIndex + 1 else rest
  }

  /** The free row of an owner with the lowest derivation index, rows locked by other
      transactions skipped. */
  function LowestAvailable(rows: seq<Row>, owner: Owner, skipped: set<nat>): (r: Option<nat>)
    ensures r.Some? ==>
      && r.value < |rows| && rows[r.value].owner == owner && rows[r.value].state == Available && r.value !in skipped
      && forall i :: 0 <= i < |rows| && rows[i].owner == owner && rows[i].state == Available && i !in skipped
           ==> rows[r.value].derivationIndex <= rows[i].derivationIndex
    ensures r.None? ==>
      forall i :: 0 <= i < |rows| && rows[i].owner == owner && rows[i].state == Available ==> i in skipped
  {
    if rows == [] then None
    else
      var k := |rows| - 1;
      var best := LowestAvailable(rows[..k], owner, skipped);
      if rows[k].owner == owner && rows[k].state == Available && k !in skipped
         && (best.None? || rows[k].derivationIndex < rows[best.value].derivationIndex) then Some(k)
      else best
  }

  predicate SameAddress(r: Row, chain: string, address: string) { r.owner.chain == chain && r.address == address }

  /** `byAddress`. */
  function FindByAddress(rows: seq<Row>, chain: string, address: string): (r: Option<nat>)
    ensures r.Some? ==> r.value < |rows| && SameAddress(rows[r.value], chain, address)
    ensures r.None? ==> forall i :: 0 <= i < |rows| ==> !SameAddress(rows[i], chain, address)
  {
    if rows == [] then None
    else if SameAddress(rows[|rows| - 1], chain, address) then Some(|rows| - 1)
    else FindByAddress(rows[..|rows| - 1], chain, address)
  }

  /** UNIQUE (chain, address) and UNIQUE (tenant, merchant, chain, derivation_index). */
  predicate Conflicts(rows: seq<Row>, r: Row)
  {
    exists i :: 0 <= i < |rows|
      && (SameAddress(rows[i], r.owner.chain, r.address)
          || (rows[i].owner == r.owner && rows[i].derivationIndex == r.derivationIndex))
  }

  // ----------------------------------------------------------------- machine

  datatype PC =
    | Claim(owner: Owner, invoice: string)
    | ReadNextIndex(owner: Owner, invoice: string)
    | ReadStrategy(owner: Owner, invoice: string, index: nat)
    | InsertRow(owner: Owner, invoice: string, index: nat, strategy: string)
    | ReadRow(chain: string, address: string, action: PoolAction)
    | CompareAndSet(chain: string, address: string, action: PoolAction, from: PoolState)

  datatype State = State(rows: seq<Row>, calls: map<nat, PC>)

  datatype Action =
    | Assign(call: nat, owner: Owner, invoice: string)
    | Transition(call: nat, chain: string, address: string, action: PoolAction)
    | ReleaseCooled(now: int)
    | Advance(call: nat, skipped: set<nat>, strategy: string, until: int)
    | Crash(call: nat)

  function Goto(s: State, id: nat, pc: PC): State { s.(calls := s.calls[id := pc]) }

  function Finish(s: State, id: nat): State { s.(calls := s.calls - {id}) }

  /** The columns that a transition writes: cooling sets the cool-down, a release clears
      invoice and cool-down, detection leaves both. */
  function Moved(r: Row, to: PoolState, action: PoolAction, until: int): Row
  {
    match action
    case Cool => r.(state := to, cooldown := Some(until))
    case Release => r.(state := to, invoice := None, cooldown := None)
    case _ => r.(state := to)
  }

  function Released(r: Row, now: int): Row
  {
    if r.state == Cooling && r.cooldown.Some? && r.cooldown.value <= now
    then r.(state := Available, invoice := None, cooldown := None) else r
  }

  function ReleasedAll(rows: seq<Row>, now: int): (r: seq<Row>)
    ensures |r| == |rows| && forall i :: 0 <= i < |rows| ==> r[i] == Released(rows[i], now)
  {
    seq(|rows|, i requires 0 <= i < |rows| => Released(rows[i], now))
  }

  /** markInUse, cool and release are the transitions a caller can ask for; reserving goes
      through assign. */
  function Do(d: Derive, s: State, a: Action): State
  {
    match a
    case Assign(id, owner, invoice) => if id in s.calls then s else Goto(s, id, Claim(owner, invoice))
    case Transition(id, chain, address, action) =>
      if id in s.calls || action == Reserve then s else Goto(s, id, ReadRow(chain, address, action))
    case ReleaseCooled(now) => s.(rows := ReleasedAll(s.rows, now))
    case Advance(id, skipped, strategy, until) =>
      if id in s.calls then Step(d, s, id, skipped, strategy, until) else s
    case Crash(id) => Finish(s, id)
  }

  function Step(d: Derive, s: State, id: nat, skipped: set<nat>, strategy: string, until: int): State
    requires id in s.calls
  {
    match s.calls[id]
    case Claim(owner, invoice) =>
      var i := LowestAvailable(s.rows, owner, skipped);
      if i.None? then Goto(s, id, ReadNextIndex(owner, invoice))
      else Finish(s.(rows := s.rows[i.value := s.rows[i.value].(state := Reserved, invoice := Some(invoice))]), id)
    case ReadNextIndex(owner, invoice) => Goto(s, id, ReadStrategy(owner, invoice, NextIndex(s.rows, owner.chain)))
    case ReadStrategy(owner, invoice, index) => Goto(s, id, InsertRow(owner, invoice, index, strategy))
    case InsertRow(owner, invoice, index, kind) =>
      var r := Row(owner, index, d(owner.chain, index), kind, Reserved, Some(invoice), None);
      if Conflicts(s.rows, r) then Finish(s, id) else Finish(s.(rows := s.rows + [r]), id)
    case ReadRow(chain, address, action) =>
      var i := FindByAddress(s.rows, chain, address);
      if i.None? || NextPoolState(s.rows[i.value].state, action).None? then Finish(s, id)
      else Goto(s, id, CompareAndSet(chain, address, action, s.rows[i.value].state))
    case CompareAndSet(chain, address, action, from) =>
      var i := FindByAddress(s.rows, chain, address);
      if i.None? || s.rows[i.value].state != from || NextPoolState(from, action).None? then Finish(s, id)
      else
        var r := Moved(s.rows[i.value], NextPoolState(from, action).value, action, until);
        Finish(s.(rows := s.rows[i.value := r]), id)
  }

  function Run(d: Derive, actions: seq<Action>): State
  {
    if actions == [] then State([], map[]) else Do(d, Run(d, actions[..|actions| - 1]), actions[|actions| - 1])
  }

  // --------------------------------------------------------------- invariant

  /** An invoice exactly while the address is not free, a cool-down exactly while it
      cools. */
  predicate Consistent(r: Row)
  {
    (r.invoice.None? <==> r.state == Available) && (r.cooldown.Some? <==> r.state == Cooling)
  }

  /** Row i is the next address of its chain. */
  ghost predicate Numbered(d: Derive, rows: seq<Row>, i: int)
    requires 0 <= i < |rows|
  {
    && rows[i].derivationIndex == CountOn(rows[..i], rows[i].owner.chain)
    && rows[i].address == d(rows[i].owner.chain, rows[i].derivationIndex)
  }

  /** An index that was read is at most the number of rows there are now. */
  ghost predicate CallOk(s: State, pc: PC)
  {
    match pc
    case ReadStrategy(owner, _, index) => index <= CountOn(s.rows, owner.chain)
    case InsertRow(owner, _, index, _) => index <= CountOn(s.rows, owner.chain)
    case ReadRow(_, _, action) => action != Reserve
    case CompareAndSet(_, _, action, _) => action != Reserve
    case _ => true
  }

  ghost predicate Distinct(rows: seq<Row>)
  {
    forall i, j :: 0 <= i < j < |rows| && rows[i].owner.chain == rows[j].owner.chain ==>
      rows[i].address != rows[j].address
  }

  ghost predicate Ok(d: Derive, s: State)
  {
    && (forall i :: 0 <= i < |s.rows| ==> Consistent(s.rows[i]) && Numbered(d, s.rows, i))
    && Distinct(s.rows)
    && (forall id :: id in s.calls ==> CallOk(s, s.calls[id]))
  }

  /** The life of an address: reserved, used, cooled and free again, or given back unused. */
  const LEGAL_MOVES: set<(PoolState, PoolState)> :=
    {(Available, Reserved), (Reserved, InUse), (InUse, Cooling), (Cooling, Available), (Reserved, Available)}

  /** What a step may do to a row: nothing, or one legal transition that keeps everything
      but state, invoice and cool-down. An invoice is only ever given to a free row. */
  ghost predicate LegalChange(before: Row, after: Row)
  {
    && after.owner == before.owner && after.derivationIndex == before.derivationIndex
    && after.address == before.address && after.strategy == before.strategy
    && (after.state == before.state || (before.state, after.state) in LEGAL_MOVES)
    && (after.invoice == before.invoice || before.state == Available || after.state == Available)
  }

  ghost predicate LegalStep(before: seq<Row>, after: seq<Row>)
  {
    |before| <= |after| <= |before| + 1 && forall i :: 0 <= i < |before| ==> LegalChange(before[i], after[i])
  }

  lemma {:induction false} CountOnPrefix(rows: seq<Row>, i: nat, chain: string)
    requires i <= |rows|
    ensures CountOn(rows[..i], chain) <= CountOn(rows, chain)
  {
    if i == |rows| {
      assert rows[..i] == rows;
    } else {
      CountOnPrefix(rows[..|rows| - 1], i, chain);
      assert rows[..|rows| - 1][..i] == rows[..i];
    }
  }

  /** Counting looks at chains only. */
  lemma {:induction false} CountOnSame(rows: seq<Row>, other: seq<Row>, chain: string)
    requires |rows| == |other| && forall i :: 0 <= i < |rows| ==> rows[i].owner == other[i].owner
    ensures CountOn(rows, chain) == CountOn(other, chain)
  {
    if rows != [] { CountOnSame(rows[..|rows| - 1], other[..|other| - 1], chain); }
  }

  lemma {:induction false} NextIndexIsCount(d: Derive, s: State, chain: string)
    requires Ok(d, s)
    ensures NextIndex(s.rows, chain) == CountOn(s.rows, chain)
    decreases |s.rows|
  {
    if s.rows != [] {
      var n := |s.rows| - 1;
      var t := State(s.rows[..n], map[]);
      forall i | 0 <= i < n ensures Numbered(d, t.rows, i) && Consistent(t.rows[i]) {
        assert Numbered(d, s.rows, i) && Consistent(s.rows[i]);
        assert t.rows[..i] == s.rows[..i];
      }
      NextIndexIsCount(d, t, chain);
      assert Numbered(d, s.rows, n);
    }
  }

  /** Every number below the count has its row. */
  lemma {:induction false} RowWithIndex(d: Derive, rows: seq<Row>, chain: string, index: nat) returns (i: nat)
    requires forall k :: 0 <= k < |rows| ==> Numbered(d, rows, k)
    requires index < CountOn(rows, chain)
    ensures i < |rows| && rows[i].owner.chain == chain && rows[i].derivationIndex == index
    decreases |rows|
  {
    var n := |rows| - 1;
    assert Numbered(d, rows, n);
    if index < CountOn(rows[..n], chain) {
      forall k | 0 <= k < n ensures Numbered(d, rows[..n], k) {
        assert Numbered(d, rows, k);
        assert rows[..n][..k] == rows[..k];
      }
      i := RowWithIndex(d, rows[..n], chain, index);
    } else {
      i := n;
    }
  }

  /** Updating rows in place keeps the invariant. */
  lemma {:induction false} UpdateOk(d: Derive, s: State, rows: seq<Row>)
    requires Ok(d, s) && |rows| == |s.rows|
    requires forall i :: 0 <= i < |rows| ==> Consistent(rows[i]) && LegalChange(s.rows[i], rows[i])
    ensures Ok(d, s.(rows := rows))
  {
    forall i | 0 <= i < |rows| ensures Numbered(d, rows, i) {
      assert Numbered(d, s.rows, i);
      CountOnSame(rows[..i], s.rows[..i], rows[i].owner.chain);
    }
    forall id | id in s.calls ensures CallOk(s.(rows := rows), s.calls[id]) {
      var pc := s.calls[id];
      assert CallOk(s, pc);
      if pc.ReadStrategy? || pc.InsertRow? { CountOnSame(rows, s.rows, pc.owner.chain); }
    }
  }

  /** An insert that passes the unique constraints takes exactly the next index. */
  lemma {:induction false} InsertOk(d: Derive, s: State, id: nat)
    requires Ok(d, s) && id in s.calls && s.calls[id].InsertRow?
    requires var pc := s.calls[id];
      !Conflicts(s.rows, Row(pc.owner, pc.index, d(pc.owner.chain, pc.index), pc.strategy, Reserved,
        Some(pc.invoice), None))
    ensures var pc := s.calls[id];
      Ok(d, s.(rows := s.rows + [Row(pc.owner, pc.index, d(pc.owner.chain, pc.index), pc.strategy, Reserved,
        Some(pc.invoice), None)]))
  {
    var pc := s.calls[id];
    var chain := pc.owner.chain;
    var r := Row(pc.owner, pc.index, d(chain, pc.index), pc.strategy, Reserved, Some(pc.invoice), None);
    var rows := s.rows + [r];
    assert CallOk(s, pc);
    if pc.index < CountOn(s.rows, chain) {
      var i := RowWithIndex(d, s.rows, chain, pc.index);
      assert Numbered(d, s.rows, i);
      assert SameAddress(s.rows[i], chain, r.address);
    }
    forall i | 0 <= i < |rows| ensures Numbered(d, rows, i) && Consistent(rows[i]) {
      assert rows[..i] == s.rows[..i];
      if i < |s.rows| { assert Numbered(d, s.rows, i); } else { assert s.rows[..i] == s.rows; }
    }
    forall i, j | 0 <= i < j < |rows| && rows[i].owner.chain == rows[j].owner.chain
      ensures rows[i].address != rows[j].address
    {
      if j == |s.rows| { assert !SameAddress(s.rows[i], chain, r.address); }
    }
    forall k | k in s.calls ensures CallOk(s.(rows := rows), s.calls[k]) {
      var q := s.calls[k];
      assert CallOk(s, q);
      assert rows[..|s.rows|] == s.rows;
    }
  }

  lemma {:induction false} CallsOk(d: Derive, s: State, calls: map<nat, PC>)
    requires Ok(d, s) && forall id :: id in calls ==> CallOk(s, calls[id])
    ensures Ok(d, s.(calls := calls))
  {
    var t := s.(calls := calls);
    forall i | 0 <= i < |t.rows| ensures Numbered(d, t.rows, i) { assert Numbered(d, s.rows, i); }
    forall id | id in calls ensures CallOk(t, calls[id]) { assert CallOk(s, calls[id]); }
  }

  lemma {:induction false} SingleChange(rows: seq<Row>, i: nat, r: Row)
    requires i < |rows| && Consistent(r) && LegalChange(rows[i], r)
    requires forall k :: 0 <= k < |rows| ==> Consistent(rows[k])
    ensures var after := rows[i := r];
      LegalStep(rows, after) && forall k :: 0 <= k < |after| ==> Consistent(after[k]) && LegalChange(rows[k], after[k])
  {
  }

  lemma {:induction false} ClaimLegal(r: Row, invoice: string)
    requires Consistent(r) && r.state == Available
    ensures var after := r.(state := Reserved, invoice := Some(invoice)); Consistent(after) && LegalChange(r, after)
  {
    assert NextPoolState(r.state, Reserve) == Some(Reserved);
  }

  lemma {:induction false} MovedLegal(r: Row, action: PoolAction, until: int)
    requires Consistent(r) && action != Reserve && NextPoolState(r.state, action).Some?
    ensures var after := Moved(r, NextPoolState(r.state, action).value, action, until);
      Consistent(after) && LegalChange(r, after)
  {
    assert NextPoolState(r.state, action) == Some(Moved(r, NextPoolState(r.state, action).value, action, until).state);
  }

  lemma {:induction false} ReleasedLegal(r: Row, now: int)
    requires Consistent(r)
    ensures Consistent(Released(r, now)) && LegalChange(r, Released(r, now))
  {
    if Released(r, now) != r { assert NextPoolState(r.state, Release) == Some(Available); }
  }

  lemma {:induction false} Unchanged(rows: seq<Row>)
    ensures LegalStep(rows, rows)
  {
  }

  /** Replacing one row legally and ending the call. */
  lemma {:induction false} ReplaceOk(d: Derive, s: State, id: nat, i: nat, r: Row)
    requires Ok(d, s) && i < |s.rows| && Consistent(r) && LegalChange(s.rows[i], r)
    ensures Ok(d, Finish(s.(rows := s.rows[i := r]), id)) && LegalStep(s.rows, s.rows[i := r])
  {
    SingleChange(s.rows, i, r);
    UpdateOk(d, s, s.rows[i := r]);
    CallsOk(d, s.(rows := s.rows[i := r]), s.calls - {id});
  }

  lemma {:induction false} ClaimOk(d: Derive, s: State, id: nat, skipped: set<nat>, strategy: string, until: int)
    requires Ok(d, s) && id in s.calls && s.calls[id].Claim?
    ensures var t := Step(d, s, id, skipped, strategy, until); Ok(d, t) && LegalStep(s.rows, t.rows)
  {
    var pc := s.calls[id];
    var i := LowestAvailable(s.rows, pc.owner, skipped);
    if i.Some? {
      ClaimLegal(s.rows[i.value], pc.invoice);
      ReplaceOk(d, s, id, i.value, s.rows[i.value].(state := Reserved, invoice := Some(pc.invoice)));
    } else {
      CallsOk(d, s, s.calls[id := ReadNextIndex(pc.owner, pc.invoice)]);
      Unchanged(s.rows);
    }
  }

  lemma {:induction false} InsertRowOk(d: Derive, s: State, id: nat, skipped: set<nat>, strategy: string, until: int)
    requires Ok(d, s) && id in s.calls && s.calls[id].InsertRow?
    ensures var t := Step(d, s, id, skipped, strategy, until); Ok(d, t) && LegalStep(s.rows, t.rows)
  {
    var pc := s.calls[id];
    var r := Row(pc.owner, pc.index, d(pc.owner.chain, pc.index), pc.strategy, Reserved, Some(pc.invoice), None);
    Unchanged(s.rows);
    if Conflicts(s.rows, r) {
      CallsOk(d, s, s.calls - {id});
    } else {
      InsertOk(d, s, id);
      CallsOk(d, s.(rows := s.rows + [r]), s.calls - {id});
    }
  }

  lemma {:induction false} CompareAndSetOk(d: Derive, s: State, id: nat, skipped: set<nat>, strategy: string,
                                           until: int)
    requires Ok(d, s) && id in s.calls && s.calls[id].CompareAndSet?
    ensures var t := Step(d, s, id, skipped, strategy, until); Ok(d, t) && LegalStep(s.rows, t.rows)
  {
    var pc := s.calls[id];
    assert CallOk(s, pc);
    var i := FindByAddress(s.rows, pc.chain, pc.address);
    if i.Some? && s.rows[i.value].state == pc.from && NextPoolState(pc.from, pc.action).Some? {
      MovedLegal(s.rows[i.value], pc.action, until);
      ReplaceOk(d, s, id, i.value, Moved(s.rows[i.value], NextPoolState(pc.from, pc.action).value, pc.action, until));
    } else {
      CallsOk(d, s, s.calls - {id});
      Unchanged(s.rows);
    }
  }

  /** Steps that only read. */
  lemma {:induction false} ReadOk(d: Derive, s: State, id: nat, skipped: set<nat>, strategy: string, until: int)
    requires Ok(d, s) && id in s.calls
    requires s.calls[id].ReadNextIndex? || s.calls[id].ReadStrategy? || s.calls[id].ReadRow?
    ensures var t := Step(d, s, id, skipped, strategy, until); Ok(d, t) && LegalStep(s.rows, t.rows)
  {
    assert CallOk(s, s.calls[id]);
    Unchanged(s.rows);
    CallsOk(d, s, s.calls - {id});
    match s.calls[id]
    case ReadNextIndex(owner, invoice) =>
      NextIndexIsCount(d, s, owner.chain);
      CallsOk(d, s, s.calls[id := ReadStrategy(owner, invoice, NextIndex(s.rows, owner.chain))]);
    case ReadStrategy(owner, invoice, index) =>
      CallsOk(d, s, s.calls[id := InsertRow(owner, invoice, index, strategy)]);
    case ReadRow(chain, address, action) =>
      var i := FindByAddress(s.rows, chain, address);
      if i.Some? { CallsOk(d, s, s.calls[id := CompareAndSet(chain, address, action, s.rows[i.value].state)]); }
  }

  lemma {:induction false} StepOk(d: Derive, s: State, id: nat, skipped: set<nat>, strategy: string, until: int)
    requires Ok(d, s) && id in s.calls
    ensures var t := Step(d, s, id, skipped, strategy, until); Ok(d, t) && LegalStep(s.rows, t.rows)
  {
    match s.calls[id]
    case Claim(_, _) => ClaimOk(d, s, id, skipped, strategy, until);
    case InsertRow(_, _, _, _) => InsertRowOk(d, s, id, skipped, strategy, until);
    case CompareAndSet(_, _, _, _) => CompareAndSetOk(d, s, id, skipped, strategy, until);
    case _ => ReadOk(d, s, id, skipped, strategy, until);
  }

  lemma {:induction false} ReleasedAllOk(d: Derive, s: State, now: int)
    requires Ok(d, s)
    ensures Ok(d, s.(rows := ReleasedAll(s.rows, now))) && LegalStep(s.rows, ReleasedAll(s.rows, now))
  {
    var rows := ReleasedAll(s.rows, now);
    forall i | 0 <= i < |rows| ensures Consistent(rows[i]) && LegalChange(s.rows[i], rows[i]) {
      ReleasedLegal(s.rows[i], now);
    }
    UpdateOk(d, s, rows);
  }

  /** One action of one call: the table stays in order and every row changes legally. */
  lemma {:induction false} DoOk(d: Derive, s: State, a: Action)
    requires Ok(d, s)
    ensures Ok(d, Do(d, s, a)) && LegalStep(s.rows, Do(d, s, a).rows)
  {
    Unchanged(s.rows);
    match a
    case Assign(id, owner, invoice) => CallsOk(d, s, s.calls[id := Claim(owner, invoice)]);
    case Transition(id, chain, address, action) =>
      if action != Reserve { CallsOk(d, s, s.calls[id := ReadRow(chain, address, action)]); }
    case ReleaseCooled(now) =>
      ReleasedAllOk(d, s, now);
    case Advance(id, skipped, strategy, until) => if id in s.calls { StepOk(d, s, id, skipped, strategy, until); }
    case Crash(id) => CallsOk(d, s, s.calls - {id});
  }

  lemma {:induction false} RunOk(d: Derive, actions: seq<Action>)
    ensures Ok(d, Run(d, actions))
  {
    if actions != [] {
      RunOk(d, actions[..|actions| - 1]);
      DoOk(d, Run(d, actions[..|actions| - 1]), actions[|actions| - 1]);
    }
  }

  /** In every run: on each chain the derivation indices are exactly 0 .. k-1, addresses
      are unique, invoice and cool-down match the state, and whatever action comes next
      changes rows only legally. */
  lemma {:induction false} PoolInvariant(d: Derive, actions: seq<Action>, chain: string, next: Action)
    ensures var rows := Run(d, actions).rows;
      && (forall i :: 0 <= i < |rows| && rows[i].owner.chain == chain ==>
        rows[i].derivationIndex < CountOn(rows, chain))
      && (forall i, j :: 0 <= i < j < |rows| && rows[i].owner.chain == chain == rows[j].owner.chain ==>
            rows[i].derivationIndex < rows[j].derivationIndex && rows[i].address != rows[j].address)
      && (forall n: nat :: n < CountOn(rows, chain) ==> HasIndex(rows, chain, n))
      && (forall i :: 0 <= i < |rows| ==> Consistent(rows[i]))
      && LegalStep(rows, Do(d, Run(d, actions), next).rows)
  {
    RunOk(d, actions);
    var s := Run(d, actions);
    var rows := s.rows;
    DoOk(d, s, next);
    forall i | 0 <= i < |rows| && rows[i].owner.chain == chain ensures rows[i].derivationIndex < CountOn(rows, chain) {
      IndexBelow(d, rows, i, |rows|);
      assert rows[..|rows|] == rows;
    }
    forall i, j | 0 <= i < j < |rows| && rows[i].owner.chain == chain == rows[j].owner.chain
      ensures rows[i].derivationIndex < rows[j].derivationIndex
    {
      IndexBelow(d, rows, i, j);
      assert Numbered(d, rows, j);
    }
    forall n: nat | n < CountOn(rows, chain) ensures HasIndex(rows, chain, n) {
      var i := RowWithIndex(d, rows, chain, n);
    }
  }

  lemma {:induction false} IndexBelow(d: Derive, rows: seq<Row>, i: nat, j: nat)
    requires i < j <= |rows| && Numbered(d, rows, i)
    ensures rows[i].derivationIndex < CountOn(rows[..j], rows[i].owner.chain)
  {
    CountOnPrefix(rows[..j], i + 1, rows[i].owner.chain);
    assert rows[..j][..i + 1] == rows[..i + 1] && rows[..i + 1][..i] == rows[..i];
  }

  ghost predicate HasIndex(rows: seq<Row>, chain: string, n: nat)
  {
    exists i :: 0 <= i < |rows| && rows[i].owner.chain == chain && rows[i].derivationIndex == n
  }

  // ------------------------------------------------------- what each operation does

  /** Cooled rows are released exactly when they are due, and nothing else is touched. */
  lemma {:induction false} ReleasesExactlyTheDue(d: Derive, s: State, now: int, i: nat)
    requires Ok(d, s) && i < |s.rows|
    ensures var r, after := s.rows[i], Do(d, s, ReleaseCooled(now)).rows[i];
      if r.state == Cooling && r.cooldown.value <= now
      then after == r.(state := Available, invoice := None, cooldown := None)
      else after == r
  {
    assert Consistent(s.rows[i]);
  }

  /** Rows that differ at most in one place. */
  ghost predicate OnlyRow(before: seq<Row>, after: seq<Row>, i: nat)
  {
    |after| == |before| && forall k :: 0 <= k < |before| && k != i ==> after[k] == before[k]
  }

  /** `assign` with a free address: the owner's free row with the lowest index is reserved for
      the asked-for invoice, and no other row changes. */
  lemma {:induction false} AssignClaims(d: Derive, s: State, id: nat, owner: Owner, invoice: string, skipped: set<nat>,
                                        strategy: string, until: int, k: nat)
    requires Ok(d, s) && id !in s.calls
    requires k < |s.rows| && s.rows[k].owner == owner && s.rows[k].state == Available && k !in skipped
    ensures var t := Do(d, Do(d, s, Assign(id, owner, invoice)), Advance(id, skipped, strategy, until));
      && id !in t.calls
      && exists i: nat :: i < |s.rows| && OnlyRow(s.rows, t.rows, i) && i !in skipped
           && s.rows[i].owner == owner && s.rows[i].state == Available
           && s.rows[i].derivationIndex <= s.rows[k].derivationIndex
           && t.rows[i] == s.rows[i].(state := Reserved, invoice := Some(invoice))
  {
    var i := LowestAvailable(s.rows, owner, skipped).value;
    var t := Do(d, Do(d, s, Assign(id, owner, invoice)), Advance(id, skipped, strategy, until));
    assert OnlyRow(s.rows, t.rows, i);
  }

  predicate Taken(rows: seq<Row>, chain: string, address: string)
  {
    exists i :: 0 <= i < |rows| && SameAddress(rows[i], chain, address)
  }

  /** `assign` without one: the next index of the chain is derived and a row for the invoice is
      added, unless its address is already taken. */
  lemma {:induction false} AssignDerives(d: Derive, s: State, id: nat, owner: Owner, invoice: string, skipped: set<nat>,
                                         strategy: string, until: int)
    requires Ok(d, s) && id !in s.calls && LowestAvailable(s.rows, owner, skipped).None?
    ensures var step := Advance(id, skipped, strategy, until);
      var t := Do(d, Do(d, Do(d, Do(d, Do(d, s, Assign(id, owner, invoice)), step), step), step), step);
      var n := CountOn(s.rows, owner.chain);
      && id !in t.calls
      && if Taken(s.rows, owner.chain, d(owner.chain, n)) then t.rows == s.rows
         else t.rows == s.rows + [Row(owner, n, d(owner.chain, n), strategy, Reserved, Some(invoice), None)]
  {
    var n := CountOn(s.rows, owner.chain);
    NextIndexIsCount(d, s, owner.chain);
    var step := Advance(id, skipped, strategy, until);
    var t1 := Do(d, Do(d, s, Assign(id, owner, invoice)), step);
    assert t1.rows == s.rows && t1.calls[id] == ReadNextIndex(owner, invoice);
    var t2 := Do(d, t1, step);
    assert t2.rows == s.rows && t2.calls[id] == ReadStrategy(owner, invoice, n);
    var t3 := Do(d, t2, step);
    assert t3.rows == s.rows && t3.calls[id] == InsertRow(owner, invoice, n, strategy);
    NoIndexClash(d, s, owner, n);
  }

  /** No row on the chain has the next index yet. */
  lemma {:induction false} NoIndexClash(d: Derive, s: State, owner: Owner, n: nat)
    requires Ok(d, s) && n == CountOn(s.rows, owner.chain)
    ensures forall i :: 0 <= i < |s.rows| && s.rows[i].owner == owner ==> s.rows[i].derivationIndex != n
  {
    forall i | 0 <= i < |s.rows| && s.rows[i].owner == owner ensures s.rows[i].derivationIndex != n {
      assert Numbered(d, s.rows, i);
      CountOnPrefix(s.rows, i + 1, owner.chain);
      assert s.rows[..i + 1][..i] == s.rows[..i];
    }
  }

  /** markInUse, cool and release on a row whose state allows them. */
  lemma {:induction false} TransitionApplies(d: Derive, s: State, id: nat, i: nat, action: PoolAction,
                                             skipped: set<nat>, strategy: string, until: int)
    requires Ok(d, s) && id !in s.calls && i < |s.rows|
    requires match action
      case Detect => s.rows[i].state == Reserved
      case Cool => s.rows[i].state == InUse
      case Release => s.rows[i].state == Cooling || s.rows[i].state == Reserved
      case Reserve => false
    ensures var r, step := s.rows[i], Advance(id, skipped, strategy, until);
      var t := Do(d, Do(d, Do(d, s, Transition(id, r.owner.chain, r.address, action)), step), step);
      t.rows == s.rows[i := match action
        case Detect => r.(state := InUse)
        case Cool => r.(state := Cooling, cooldown := Some(until))
        case _ => r.(state := Available, invoice := None, cooldown := None)]
  {
    var r, step := s.rows[i], Advance(id, skipped, strategy, until);
    FoundIsIt(d, s, i);
    var t1 := Do(d, s, Transition(id, r.owner.chain, r.address, action));
    var t2 := Do(d, t1, step);
    assert t2.rows == s.rows && t2.calls[id] == CompareAndSet(r.owner.chain, r.address, action, r.state);
  }

  lemma {:induction false} FoundIsIt(d: Derive, s: State, i: nat)
    requires Ok(d, s) && i < |s.rows|
    ensures FindByAddress(s.rows, s.rows[i].owner.chain, s.rows[i].address) == Some(i)
  {
    var j := FindByAddress(s.rows, s.rows[i].owner.chain, s.rows[i].address);
    assert SameAddress(s.rows[i], s.rows[i].owner.chain, s.rows[i].address);
  }
}
