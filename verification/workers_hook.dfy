/** The workers hook: the session's cached `workers` and `wageRecords` lists
    and how `addWorker`, `addWageRecord` and `deleteWorker` rewrite them after
    their remote call. */
module WorkersHook {
  import opened Common
  import opened Records

  function WorkerKey(w: Worker): RowId
  {
    w.id
  }

  class WorkersCache {
    var workers: seq<Worker>
    var wageRecords: seq<WageRecord>

    constructor ()
      ensures workers == [] && wageRecords == []
    {
      workers, wageRecords := [], [];
    }

    /** `addWorker(data)`; `reply` is the stored row the backend returns, or an
        error. */
    method AddWorker(user: Option<UserId>, reply: Remote<Worker>) returns (result: Outcome<Worker>)
      modifies this
      ensures wageRecords == old(wageRecords)
      ensures user.None? ==> result == Nothing && workers == old(workers)
      ensures user.Some? && reply.Err? ==> result == Thrown(reply.message) && workers == old(workers)
      ensures user.Some? && reply.Ok? ==> result == Returned(reply.value) && workers == [reply.value] + old(workers)
    {
      if user.None? {
        return Nothing;
      }
      match reply
      case Err(message) =>
        result := Thrown(message);
      case Ok(row) =>
        workers := [row] + workers;
        result := Returned(row);
    }

    /** `addWageRecord(data)`; `reply` is the stored row the backend returns,
        or an error. */
    method AddWageRecord(user: Option<UserId>, reply: Remote<WageRecord>) returns (result: Outcome<WageRecord>)
      modifies this
      ensures workers == old(workers)
      ensures user.None? ==> result == Nothing && wageRecords == old(wageRecords)
      ensures user.Some? && reply.Err? ==> result == Thrown(reply.message) && wageRecords == old(wageRecords)
      ensures user.Some? && reply.Ok? ==> result == Returned(reply.value) && wageRecords == [reply.value] + old(wageRecords)
    {
      if user.None? {
        return Nothing;
      }
      match reply
      case Err(message) =>
        result := Thrown(message);
      case Ok(row) =>
        wageRecords := [row] + wageRecords;
        result := Returned(row);
    }

    /** `deleteWorker(workerId)`; no signed-in user is needed, an error is
        swallowed, and the cached wage records are left as they are (the
        worker's wage records stay in the cache). */
    method DeleteWorker(workerId: RowId, reply: Remote<()>)
      modifies this
      ensures wageRecords == old(wageRecords)
      ensures reply.Err? ==> workers == old(workers)
      ensures reply.Ok? ==> workers == RemoveKey(old(workers), WorkerKey, workerId)
    {
      if reply.Ok? {
        workers := RemoveKey(workers, WorkerKey, workerId);
      }
    }
  }

  /** What `deleteWorker` leaves: the other workers in their order, each as
      often as before, none with the deleted id, and an unknown id changes
      nothing. */
  lemma DeleteWorkerSpec(workers: seq<Worker>, workerId: RowId)
    ensures IsSubseq(RemoveKey(workers, WorkerKey, workerId), workers)
    ensures forall w :: multiset(RemoveKey(workers, WorkerKey, workerId))[w] == if w.id == workerId then 0 else multiset(workers)[w]
    ensures forall i :: 0 <= i < |RemoveKey(workers, WorkerKey, workerId)| ==> RemoveKey(workers, WorkerKey, workerId)[i].id != workerId
    ensures (forall i :: 0 <= i < |workers| ==> workers[i].id != workerId) ==> RemoveKey(workers, WorkerKey, workerId) == workers
  {
    RemoveKeySpec(workers, WorkerKey, workerId);
  }

  /** Deleting a worker just added under a new id restores the old list. */
  lemma AddThenDeleteWorker(workers: seq<Worker>, row: Worker)
    requires forall i :: 0 <= i < |workers| ==> workers[i].id != row.id
    ensures RemoveKey([row] + workers, WorkerKey, row.id) == workers
  {
    RemoveAfterPrepend(workers, WorkerKey, row);
  }
}
