/** The two bulk actions of the request list in the admin site. Each
    overwrites the status of every selected request in one update; nothing
    else about any request changes (a bulk update does not even touch the
    "last updated" stamp). */
module AdminActions {
  import opened AdminRequests

  /** The stored requests by primary key after `status := status` on the
      keys of `selection`. */
  function SetStatus(rows: map<nat, AdminRequest>, selection: set<nat>, status: string)
    : (r: map<nat, AdminRequest>)
    ensures r.Keys == rows.Keys
    ensures forall k :: k in rows && k in selection ==> r[k].status == status
    ensures forall k :: k in rows && k !in selection ==> r[k] == rows[k]
  {
    map k | k in rows :: if k in selection then rows[k].(status := status) else rows[k]
  }

  /** Only the status changes: the requester, target, type, text, reviewer,
      review comment and timestamps of every request stay as they were. */
  lemma OnlyStatusChanges(rows: map<nat, AdminRequest>, selection: set<nat>, status: string, k: nat)
    requires k in rows
    ensures var r := SetStatus(rows, selection, status)[k];
            r.requester == rows[k].requester && r.targetPost == rows[k].targetPost
            && r.requestType == rows[k].requestType && r.title == rows[k].title
            && r.content == rows[k].content && r.reviewer == rows[k].reviewer
            && r.reviewComment == rows[k].reviewComment
            && r.createdAt == rows[k].createdAt && r.updatedAt == rows[k].updatedAt
  {
  }

  /** Running an action twice has the effect of running it once. */
  lemma SetStatusIdempotent(rows: map<nat, AdminRequest>, selection: set<nat>, status: string)
    ensures SetStatus(SetStatus(rows, selection, status), selection, status) ==
              SetStatus(rows, selection, status)
  {
    var once := SetStatus(rows, selection, status);
    var twice := SetStatus(once, selection, status);
    forall k | k in rows ensures twice[k] == once[k] {
      if k in selection {
        assert once[k] == rows[k].(status := status);
      }
    }
  }

  /** Every stored request has a declared status. */
  predicate StatusesDeclared(rows: map<nat, AdminRequest>)
  {
    forall k :: k in rows ==> rows[k].status in Codes(StatusChoices)
  }

  /** Rejecting keeps every status declared. */
  lemma RejectKeepsStatusesDeclared(rows: map<nat, AdminRequest>, selection: set<nat>)
    requires StatusesDeclared(rows)
    ensures StatusesDeclared(SetStatus(rows, selection, "rejected"))
  {
    DeclaredCodes();
  }

  /** Approving any stored request leaves a status that is not one of the
      declared codes. */
  lemma ApproveBreaksStatusesDeclared(rows: map<nat, AdminRequest>, selection: set<nat>, k: nat)
    requires k in rows && k in selection
    ensures !StatusesDeclared(SetStatus(rows, selection, "approved"))
  {
    DeclaredCodes();
    assert SetStatus(rows, selection, "approved")[k].status == "approved";
  }

  /** The stored requests the admin actions work on. */
  class RequestTable {
    var rows: map<nat, AdminRequest>

    constructor (rows: map<nat, AdminRequest>)
      ensures this.rows == rows
    {
      this.rows := rows;
    }

    /** `make_approved`: every selected request gets status "approved". */
    method MakeApproved(selection: set<nat>)
      modifies this
      ensures rows == SetStatus(old(rows), selection, "approved")
    {
      rows := SetStatus(rows, selection, "approved");
    }

    /** `make_rejected`: every selected request gets status "rejected". */
    method MakeRejected(selection: set<nat>)
      modifies this
      ensures rows == SetStatus(old(rows), selection, "rejected")
      ensures StatusesDeclared(old(rows)) ==> StatusesDeclared(rows)
    {
      if StatusesDeclared(rows) {
        RejectKeepsStatusesDeclared(rows, selection);
      }
      rows := SetStatus(rows, selection, "rejected");
    }
  }
}
