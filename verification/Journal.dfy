/** The journal as a value: the append-only, idempotent list of entries that the ledger
    store keeps (backend/src/stores/memory-ledger.store.ts), and the figures read off it. */
module Journal {
  import opened Ledger

  function Keys(j: seq<Entry>): set<EntryKey>
  {
    set i | 0 <= i < |j| :: j[i].key
  }

  ghost predicate UniqueKeys(j: seq<Entry>)
  {
    forall i, k :: 0 <= i < k < |j| ==> j[i].key != j[k].key
  }

  /** `append`: an entry whose key has been seen changes nothing. */
  function Recorded(j: seq<Entry>, e: Entry): seq<Entry>
  {
    if e.key in Keys(j) then j else j + [e]
  }

  lemma {:induction false} RecordedKeys(j: seq<Entry>, e: Entry)
    ensures Keys(Recorded(j, e)) == Keys(j) + {e.key}
    ensures UniqueKeys(j) ==> UniqueKeys(Recorded(j, e))
  {
    var r := Recorded(j, e);
    if e.key !in Keys(j) {
      assert forall i :: 0 <= i < |j| ==> r[i] == j[i] && j[i].key in Keys(j);
      assert r[|j|] == e;
    }
  }

  function Flatten(j: seq<Entry>): seq<Posting>
  {
    if j == [] then [] else Flatten(j[..|j| - 1]) + j[|j| - 1].postings
  }

  /** A figure over the whole journal, entry by entry. */
  function Total(m: Measure, j: seq<Entry>): int
  {
    if j == [] then 0 else Total(m, j[..|j| - 1]) + Sum(m, j[|j| - 1].postings)
  }

  lemma {:induction false} TotalIsSum(m: Measure, j: seq<Entry>)
    ensures Sum(m, Flatten(j)) == Total(m, j)
  {
    if j != [] {
      TotalIsSum(m, j[..|j| - 1]);
      SumConcat(m, Flatten(j[..|j| - 1]), j[|j| - 1].postings);
    }
  }

  lemma {:induction false} TotalSnoc(m: Measure, j: seq<Entry>, e: Entry)
    ensures Total(m, j + [e]) == Total(m, j) + Sum(m, e.postings)
  {
    assert (j + [e])[..|j|] == j;
  }

  /** What a merchant may still spend: the credit-normal balance of an account. */
  function Owed(j: seq<Entry>, account: string, asset: string): int
  {
    -Total(OfAccount(account, asset), j)
  }

  ghost predicate AllAccepted(j: seq<Entry>)
  {
    forall i :: 0 <= i < |j| ==> Accepted(j[i].postings)
  }

  /** Position of the entry with a key. */
  ghost predicate At(j: seq<Entry>, i: int, key: EntryKey)
  {
    0 <= i < |j| && j[i].key == key
  }

  /** `assetSolvency` and `isSolvent`: assets cover liabilities. */
  ghost predicate Solvent(j: seq<Entry>, asset: string)
  {
    Total(OfType(Asset, asset), j) >= Total(OfType(Liability, asset), j)
  }
}
