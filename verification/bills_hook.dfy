/** The bills hook: the session's cached `bills` list and how `addBill`,
    `updateBill` and `deleteBill` rewrite it after their remote call. */
module BillsHook {
  import opened Common
  import opened Records

  function BillId(b: Bill): RowId
  {
    b.id
  }

  class BillsCache {
    var bills: seq<Bill>

    constructor ()
      ensures bills == []
    {
      bills := [];
    }

    /** `addBill(data)`; `reply` is the stored row the backend returns, or an
        error. */
    method AddBill(user: Option<UserId>, reply: Remote<Bill>) returns (result: Outcome<Bill>)
      modifies this
      ensures user.None? ==> result == Nothing && bills == old(bills)
      ensures user.Some? && reply.Err? ==> result == Thrown(reply.message) && bills == old(bills)
      ensures user.Some? && reply.Ok? ==> result == Returned(reply.value) && bills == [reply.value] + old(bills)
    {
      if user.None? {
        return Nothing;
      }
      match reply
      case Err(message) =>
        result := Thrown(message);
      case Ok(row) =>
        bills := [row] + bills;
        result := Returned(row);
    }

    /** `updateBill(billId, data)`; no signed-in user is needed. `reply` is the
        updated row, or an error. Every cached bill with id `billId` is
        replaced by the row; the others stay where they were. */
    method UpdateBill(billId: RowId, reply: Remote<Bill>) returns (result: Outcome<Bill>)
      modifies this
      ensures reply.Err? ==> result == Thrown(reply.message) && bills == old(bills)
      ensures reply.Ok? ==> result == Returned(reply.value) && bills == ReplaceKey(old(bills), BillId, billId, reply.value)
      ensures |bills| == |old(bills)|
      ensures forall i :: 0 <= i < |bills| && old(bills)[i].id != billId ==> bills[i] == old(bills)[i]
    {
      match reply
      case Err(message) =>
        result := Thrown(message);
      case Ok(row) =>
        bills := ReplaceKey(bills, BillId, billId, row);
        result := Returned(row);
    }

    /** `deleteBill(billId)`; no signed-in user is needed and an error is
        swallowed (reported to the user only), so nothing is returned. */
    method DeleteBill(billId: RowId, reply: Remote<()>)
      modifies this
      ensures reply.Err? ==> bills == old(bills)
      ensures reply.Ok? ==> bills == RemoveKey(old(bills), BillId, billId)
    {
      if reply.Ok? {
        bills := RemoveKey(bills, BillId, billId);
      }
    }
  }

  /** What `deleteBill` leaves: the other bills in their order, each as often
      as before, none with the deleted id, and an unknown id changes nothing. */
  lemma DeleteBillSpec(bills: seq<Bill>, billId: RowId)
    ensures IsSubseq(RemoveKey(bills, BillId, billId), bills)
    ensures forall b :: multiset(RemoveKey(bills, BillId, billId))[b] == if b.id == billId then 0 else multiset(bills)[b]
    ensures forall i :: 0 <= i < |RemoveKey(bills, BillId, billId)| ==> RemoveKey(bills, BillId, billId)[i].id != billId
    ensures (forall i :: 0 <= i < |bills| ==> bills[i].id != billId) ==> RemoveKey(bills, BillId, billId) == bills
  {
    RemoveKeySpec(bills, BillId, billId);
  }

  /** Deleting a bill just added under a new id restores the old list. */
  lemma AddThenDeleteBill(bills: seq<Bill>, row: Bill)
    requires forall i :: 0 <= i < |bills| ==> bills[i].id != row.id
    ensures RemoveKey([row] + bills, BillId, row.id) == bills
  {
    RemoveAfterPrepend(bills, BillId, row);
  }

  /** Deleting a bill after updating it leaves what deleting it alone leaves. */
  lemma UpdateThenDeleteBill(bills: seq<Bill>, billId: RowId, row: Bill)
    requires row.id == billId
    ensures RemoveKey(ReplaceKey(bills, BillId, billId, row), BillId, billId) == RemoveKey(bills, BillId, billId)
  {
    RemoveAfterReplace(bills, BillId, billId, row);
  }
}
