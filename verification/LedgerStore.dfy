/** The in-memory ledger store and the ledger service as objects
    (backend/src/stores/memory-ledger.store.ts, backend/src/services/ledger.service.ts,
    backend/src/ledger/solvency.ts). In every flow of the engine an entry's id equals its
    idempotency key, so one key serves for both. */
module LedgerStore {
  import opened Wrappers
  import opened Ledger
  import opened Journal

  type Totals = map<AccountType, map<string, int>>

  function SumForAsset(totals: Totals, t: AccountType, asset: string): int
  {
    if t in totals && asset in totals[t] then totals[t][asset] else 0
  }

  datatype AssetSolvency = AssetSolvency(asset: string, assets: int, liabilities: int)

  /** byEntry holds the postings of every entry and nothing else. */
  ghost predicate Indexes(byEntry: map<EntryKey, seq<Posting>>, j: seq<Entry>)
  {
    && byEntry.Keys == Keys(j)
    && forall i :: 0 <= i < |j| ==> j[i].key in byEntry && byEntry[j[i].key] == j[i].postings
  }

  lemma {:induction false} IndexesAppended(byEntry: map<EntryKey, seq<Posting>>, j: seq<Entry>, e: Entry)
    requires Indexes(byEntry, j) && e.key !in Keys(j)
    ensures Indexes(byEntry[e.key := e.postings], j + [e])
  {
    RecordedKeys(j, e);
    forall i | 0 <= i < |j| ensures j[i].key != e.key {
      assert j[i].key in Keys(j);
    }
  }

  class MemoryLedgerStore {
    var seenKeys: set<EntryKey>
    var postings: seq<Posting>
    var byEntry: map<EntryKey, seq<Posting>>
    ghost var journal: seq<Entry>

    ghost predicate Valid()
      reads this
    {
      && UniqueKeys(journal) && seenKeys == Keys(journal) && postings == Flatten(journal)
      && Indexes(byEntry, journal)
    }

    constructor ()
      ensures Valid() && journal == []
    {
      seenKeys, postings, byEntry := {}, [], map[];
      journal := [];
    }

    method Append(e: Entry) returns (applied: bool)
      requires Valid()
      modifies this
      ensures Valid() && journal == Recorded(old(journal), e)
      ensures applied <==> e.key !in Keys(old(journal))
    {
      if e.key in seenKeys {
        return false;
      }
      RecordedKeys(journal, e);
      IndexesAppended(byEntry, journal, e);
      assert (journal + [e])[..|journal|] == journal;
      seenKeys := seenKeys + {e.key};
      postings := postings + e.postings;
      byEntry := byEntry[e.key := e.postings];
      journal := journal + [e];
      return true;
    }

    method EntryPostings(key: EntryKey) returns (ps: seq<Posting>)
      requires Valid()
      ensures key !in Keys(journal) ==> ps == []
      ensures forall i :: At(journal, i, key) ==> ps == journal[i].postings
    {
      ps := if key in byEntry then byEntry[key] else [];
    }

    /** `balance`: one pass over all postings. */
    method Balance(account: string, asset: string) returns (net: int)
      requires Valid()
      ensures net == Total(OfAccount(account, asset), journal)
    {
      net := 0;
      var i := 0;
      while i < |postings|
        invariant 0 <= i <= |postings|
        invariant net == Sum(OfAccount(account, asset), postings[..i])
      {
        var p := postings[i];
        assert postings[..i + 1][..i] == postings[..i];
        if p.account == account && p.asset == asset {
          net := net + Signed(p);
        }
        i := i + 1;
      }
      assert postings[..i] == postings;
      TotalIsSum(OfAccount(account, asset), journal);
    }

    /** `totalsByType`: None is the exception for an unknown account. */
    method TotalsByType() returns (r: Option<Totals>)
      requires Valid()
      ensures r.Some? <==> Known(postings)
      ensures r.Some? ==> forall t, s :: SumForAsset(r.value, t, s) == Total(OfType(t, s), journal)
    {
      var totals: Totals := map[];
      var i := 0;
      while i < |postings|
        invariant 0 <= i <= |postings|
        invariant Known(postings[..i])
        invariant Tallies(totals, postings[..i])
      {
        var p := postings[i];
        var kind := AccountTypeOf(p.account);
        if kind.None? {
          return None;
        }
        assert postings[..i + 1] == postings[..i] + [p];
        TalliesOneMore(totals, postings[..i], p);
        var t := kind.value;
        var normalPositive := if t == Asset || t == Expense then Signed(p) else -Signed(p);
        totals := AddTo(totals, t, p.asset, normalPositive);
        i := i + 1;
      }
      assert postings[..i] == postings;
      forall t, s ensures SumForAsset(totals, t, s) == Total(OfType(t, s), journal) {
        TotalIsSum(OfType(t, s), journal);
      }
      return Some(totals);
    }
  }

  ghost predicate Tallies(totals: Totals, ps: seq<Posting>)
  {
    forall t, s :: SumForAsset(totals, t, s) == Sum(OfType(t, s), ps)
  }

  lemma {:induction false} TalliesOneMore(totals: Totals, ps: seq<Posting>, p: Posting)
    requires Tallies(totals, ps) && AccountTypeOf(p.account).Some?
    ensures var t := AccountTypeOf(p.account).value;
      Tallies(AddTo(totals, t, p.asset, if DebitNormal(t) then Signed(p) else -Signed(p)), ps + [p])
  {
    assert (ps + [p])[..|ps|] == ps;
  }

  function AddTo(totals: Totals, t: AccountType, asset: string, amount: int): (r: Totals)
    ensures forall u, s ::
      SumForAsset(r, u, s) == SumForAsset(totals, u, s) + if u == t && s == asset then amount else 0
  {
    var perAsset := if t in totals then totals[t] else map[];
    totals[t := perAsset[asset := (if asset in perAsset then perAsset[asset] else 0) + amount]]
  }

  class LedgerService {
    const store: MemoryLedgerStore

    constructor (store: MemoryLedgerStore)
      ensures this.store == store
    {
      this.store := store;
    }

    /** `post`: refuse an unbalanced entry, then append idempotently. */
    method Post(e: Entry) returns (r: Result<bool, LedgerError>)
      requires store.Valid()
      modifies store
      ensures store.Valid()
      ensures r.Success? <==> Accepted(e.postings)
      ensures r.Success? ==> (r.value <==> e.key !in Keys(old(store.journal)))
      ensures store.journal == if r.Success? then Recorded(old(store.journal), e) else old(store.journal)
    {
      var ok := AssertBalanced(e.postings);
      if ok.Failure? {
        return Failure(ok.error);
      }
      var applied := store.Append(e);
      return Success(applied);
    }

    /** `lockPayout`: the available balance is checked before idempotency, so a retry of a
        payout that is already locked is refused once less than its amount is left. */
    method LockPayout(key: EntryKey, asset: string, amount: int, available: string, pending: string)
      returns (r: Result<bool, LedgerError>)
      requires store.Valid() && AccountTypeOf(available) == Some(Liability)
      modifies store
      ensures store.Valid()
      ensures r.Success? <==> 0 < amount <= Owed(old(store.journal), available, asset)
      ensures r.Success? ==> (r.value <==> key !in Keys(old(store.journal)))
      ensures store.journal == if r.Success?
        then Recorded(old(store.journal), PayoutLocked(key, asset, amount, available, pending).value)
        else old(store.journal)
    {
      var net := store.Balance(available, asset);
      var have := NormalBalance(available, net).value;
      if amount > have {
        return Failure(InsufficientFunds);
      }
      var e := PayoutLocked(key, asset, amount, available, pending);
      if e.Failure? {
        return Failure(e.error);
      }
      MoveAccepted(available, pending, asset, amount, None);
      assert e.value.postings == e.value.postings + NetworkFeePostings(None);
      r := Post(e.value);
    }

    /** `reverseByRef`: append the flipped postings of an existing entry under a new key. */
    method ReverseByRef(original: EntryKey, newKey: EntryKey) returns (r: Result<bool, LedgerError>)
      requires store.Valid() && AllAccepted(store.journal)
      modifies store
      ensures store.Valid()
      ensures r.Success? <==> original in Keys(old(store.journal))
      ensures r.Success? ==> (r.value <==> newKey !in Keys(old(store.journal)))
      ensures r.Failure? ==> store.journal == old(store.journal)
      ensures r.Success? ==> forall i :: At(old(store.journal), i, original) ==>
        store.journal == Recorded(old(store.journal), Entry(newKey, Flip(old(store.journal)[i].postings)))
    {
      var ps := store.EntryPostings(original);
      if original in Keys(store.journal) {
        var i :| At(store.journal, i, original);
        FlipAccepted(store.journal[i].postings);
      }
      if |ps| == 0 {
        return Failure(UnknownEntry);
      }
      r := Post(Entry(newKey, Flip(ps)));
    }

    /** `checkSolvency` with `solvencyDrift`: the assets that are under water. */
    method CheckSolvency(assets: seq<string>) returns (r: Option<seq<AssetSolvency>>)
      requires store.Valid()
      ensures r.Some? <==> Known(store.postings)
      ensures r.Some? ==> r.value == Drift(store.journal, assets)
    {
      var totals := store.TotalsByType();
      if totals.None? {
        return None;
      }
      var bad: seq<AssetSolvency> := [];
      var i := 0;
      while i < |assets|
        invariant 0 <= i <= |assets|
        invariant bad == Drift(store.journal, assets[..i])
      {
        var s := AssetSolvency(assets[i], SumForAsset(totals.value, Asset, assets[i]),
                               SumForAsset(totals.value, Liability, assets[i]));
        assert assets[..i + 1][..i] == assets[..i];
        if !(s.assets >= s.liabilities) {
          bad := bad + [s];
        }
        i := i + 1;
      }
      assert assets[..i] == assets;
      return Some(bad);
    }

    /** `isSolvent`: no drift for this one asset. */
    method IsSolvent(asset: string) returns (r: Option<bool>)
      requires store.Valid()
      ensures r.Some? <==> Known(store.postings)
      ensures r.Some? ==> (r.value <==> Solvent(store.journal, asset))
    {
      var bad := CheckSolvency([asset]);
      if bad.None? {
        return None;
      }
      assert [asset][..0] == [];
      return Some(|bad.value| == 0);
    }
  }

  /** The insolvent assets of a list, in order, with their two totals. */
  ghost function Drift(j: seq<Entry>, assets: seq<string>): seq<AssetSolvency>
  {
    if assets == [] then []
    else
      var a := assets[|assets| - 1];
      Drift(j, assets[..|assets| - 1])
      + if Solvent(j, a) then [] else [AssetSolvency(a, Total(OfType(Asset, a), j), Total(OfType(Liability, a), j))]
  }
}
