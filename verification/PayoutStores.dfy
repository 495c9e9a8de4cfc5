/** The payout intent table and the approval table as objects
    (backend/src/chains/payout/payout-journal.ts, backend/src/stores/approval.store.ts). */
module PayoutStores {
  import opened Wrappers
  import opened Policy
  import opened PayoutProtocol

  class PayoutJournal {
    var rows: Rows

    constructor ()
      ensures rows == map[]
    {
      rows := map[];
    }

    /** Inserting is idempotent: the first request's requester and time stand. */
    method BeginIntent(key: string, requestedBy: Option<string>, now: int) returns (row: Row)
      modifies this
      ensures rows == Begin(old(rows), key, requestedBy, now)
      ensures key in rows && row == rows[key]
      ensures row == if key in old(rows) then old(rows)[key] else Row(Locked, None, None, requestedBy, now)
      ensures RowsKept(old(rows), rows) && rows.Keys == old(rows).Keys + {key}
    {
      if key !in rows {
        rows := rows[key := Row(Locked, None, None, requestedBy, now)];
      }
      row := rows[key];
    }

    method SetFromAddress(key: string, from: string)
      modifies this
      ensures Touched(old(rows), rows, key) && rows == SetFrom(old(rows), key, from)
      ensures key in rows ==> StatusOk(rows[key]) && rows[key].from == Some(from)
      ensures key in rows ==> rows[key].txId == old(rows)[key].txId
    {
      if key in rows {
        rows := rows[key := rows[key].(from := Some(from), status := Broadcasting)];
      }
    }

    method MarkBroadcast(key: string, txId: string)
      modifies this
      ensures Touched(old(rows), rows, key) && rows == SetBroadcast(old(rows), key, txId)
      ensures key in rows ==> (StatusOk(rows[key]) <==> old(rows)[key].from.Some?)
      ensures key in rows ==> rows[key].txId == Some(txId) && rows[key].from == old(rows)[key].from
    {
      if key in rows {
        rows := rows[key := rows[key].(txId := Some(txId), status := Broadcast)];
      }
    }

    method MarkSettled(key: string)
      modifies this
      ensures Touched(old(rows), rows, key) && rows == SetSettled(old(rows), key)
      ensures key in rows ==> (StatusOk(rows[key]) <==> old(rows)[key].from.Some? && old(rows)[key].txId.Some?)
    {
      if key in rows {
        rows := rows[key := rows[key].(status := Settled)];
      }
    }

    method MarkFailed(key: string)
      modifies this
      ensures Touched(old(rows), rows, key) && rows == SetFailed(old(rows), key)
    {
      if key in rows {
        rows := rows[key := rows[key].(status := Failed)];
      }
    }
  }

  /** At most the row of this key changed, and not its origin; none was added. */
  ghost predicate Touched(before: Rows, after: Rows, key: string)
  {
    && after.Keys == before.Keys && RowsKept(before, after)
    && forall k :: k in before && k != key ==> after[k] == before[k]
  }

  class ApprovalStore {
    /** The approvers of each intent, oldest first. */
    var approvers: map<string, seq<string>>

    constructor ()
      ensures approvers == map[]
    {
      approvers := map[];
    }

    method ApproversFor(key: string) returns (rows: seq<string>)
      ensures rows == if key in approvers then approvers[key] else []
    {
      rows := if key in approvers then approvers[key] else [];
    }

    /** None is the refusal of an unnamed approver or of the requester. */
    method Approve(key: string, approver: string, requestedBy: Option<string>) returns (recorded: Option<bool>)
      modifies this
      ensures var before := if key in old(approvers) then old(approvers)[key] else [];
        var after := RecordApproval(before, approver, requestedBy);
        && (recorded.None? <==> after.None?)
        && (recorded.Some? ==> (recorded.value <==> approver !in before))
        && approvers == (if after.None? then old(approvers) else old(approvers)[key := after.value])
    {
      if approver == "" {
        return None;
      }
      if requestedBy.Some? && requestedBy.value != "" && requestedBy.value == approver {
        return None;
      }
      var rows := ApproversFor(key);
      var isNew := approver !in rows;
      approvers := approvers[key := if isNew then rows + [approver] else rows];
      return Some(isNew);
    }
  }
}
