/** The scan cursor of one deposit address (backend/src/chains/evm/evm-deposit-source.ts,
    scanInboundErc20 in backend/src/chains/evm/evm-adapter.ts). Head readings are inputs
    and may go backwards. */
module DepositCursor {
  import opened Wrappers

  /** Blocks lo .. hi, both scanned. */
  datatype Range = Range(lo: int, hi: int)

  /** Ranges that follow one another without gap or overlap, from seed up to next. */
  ghost predicate Tiles(scans: seq<Range>, seed: int, next: int)
  {
    if scans == [] then next == seed
    else
      var last := scans[|scans| - 1];
      last.lo <= last.hi && last.hi + 1 == next && Tiles(scans[..|scans| - 1], seed, last.lo)
  }

  /** Every block from the seed on below the cursor is in exactly one range. */
  lemma {:induction false} TilesCover(scans: seq<Range>, seed: int, next: int, block: int)
    requires Tiles(scans, seed, next)
    ensures seed <= next
    ensures seed <= block < next ==> exists i :: 0 <= i < |scans| && scans[i].lo <= block <= scans[i].hi
    ensures forall i :: 0 <= i < |scans| ==> seed <= scans[i].lo <= scans[i].hi < next
    ensures forall i, j :: 0 <= i < j < |scans| ==> scans[i].hi < scans[j].lo
  {
    if scans != [] {
      var n := |scans| - 1;
      TilesCover(scans[..n], seed, scans[n].lo, block);
      if seed <= block < scans[n].lo {
        var i :| 0 <= i < n && scans[..n][i].lo <= block <= scans[..n][i].hi;
        assert scans[i].lo <= block <= scans[i].hi;
      }
      forall i | 0 <= i < n ensures seed <= scans[i].lo <= scans[i].hi < next { assert scans[..n][i] == scans[i]; }
      forall i, j | 0 <= i < j < |scans| ensures scans[i].hi < scans[j].lo {
        assert scans[..n][i] == scans[i];
        if j < n { assert scans[..n][j] == scans[j]; }
      }
    }
  }

  class EvmDepositSource {
    const confirmations: nat
    const lookback: nat
    var cursor: Option<int>
    ghost var seed: int
    ghost var scans: seq<Range>

    /** The stored cursor is the block after the last scanned one; without a cursor nothing
        has been scanned. */
    ghost predicate Valid()
      reads this
    {
      if cursor.None? then scans == [] else scans != [] && Tiles(scans, seed, cursor.value)
    }

    constructor (confirmations: nat, lookback: nat)
      ensures Valid() && cursor.None?
      ensures this.confirmations == confirmations && this.lookback == lookback
    {
      this.confirmations := confirmations;
      this.lookback := lookback;
      cursor, scans := None, [];
    }

    /** `fetchInbound` with its two head readings. What it scans continues the earlier
        ranges, stays below the confirmed head, and the cursor never goes back. */
    method FetchInbound(head: nat, scanHead: nat) returns (scanned: Option<Range>)
      requires Valid()
      modifies this
      ensures Valid()
      ensures scans == if scanned.Some? then old(scans) + [scanned.value] else old(scans)
      ensures scanned.Some? ==> scanned.value.lo <= scanned.value.hi == scanHead - confirmations
      ensures old(cursor).Some? ==> cursor.Some? && cursor.value >= old(cursor).value && seed == old(seed)
      ensures old(cursor).Some? && scanned.Some? ==> scanned.value.lo == old(cursor).value
      ensures scanned.None? ==> cursor == old(cursor)
      ensures scanned.Some? ==> cursor == Some(scanned.value.hi + 1)
      ensures old(cursor).None? && scanned.Some? ==>
        seed == scanned.value.lo == if head > lookback then head - lookback else 0
      ensures confirmations <= lookback && confirmations <= head <= scanHead && old(cursor).None? ==> scanned.Some?
    {
      var from := if cursor.Some? then cursor.value else if head > lookback then head - lookback else 0;
      var safe := scanHead - confirmations;
      if safe < from {
        return None;
      }
      if cursor.None? {
        seed := from;
      }
      assert (scans + [Range(from, safe)])[..|scans|] == scans;
      scans := scans + [Range(from, safe)];
      cursor := Some(safe + 1);
      return Some(Range(from, safe));
    }
  }
}
