/** The daily-wage edit shared by the attendance pages: find the worker,
    then send `updateWorker` a payload that copies the worker's name, photo,
    phone and address and carries the new wage. */
module WageUpdate {
  import opened Common
  import opened Records

  /** `workers.find(w => w.id === id)`. */
  function FindWorker(workers: seq<Worker>, id: RowId): (r: Option<Worker>)
    ensures r.None? <==> forall i :: 0 <= i < |workers| ==> workers[i].id != id
    ensures r.Some? ==> r.value.id == id && r.value in workers
  {
    if workers == [] then None
    else if workers[0].id == id then Some(workers[0])
    else FindWorker(workers[1..], id)
  }

  /** The lookup returns the first worker with the id. */
  lemma {:induction false} FindWorkerFirst(workers: seq<Worker>, id: RowId, k: nat)
    requires k < |workers| && workers[k].id == id
    requires forall j :: 0 <= j < k ==> workers[j].id != id
    ensures FindWorker(workers, id) == Some(workers[k])
  {
    if k > 0 {
      FindWorkerFirst(workers[1..], id, k - 1);
    }
  }

  /** The `updateWorker` payload for a new wage. */
  function WagePayload(w: Worker, newWage: int): WorkerData
  {
    WorkerData(w.name, w.photoUrl, Some(newWage), w.phone, w.address)
  }

  /** The row an update writes: the name and every field the payload carries
      are set; an absent field (`undefined`, which is not sent) keeps the
      stored value. */
  function ApplyUpdate(w: Worker, d: WorkerData): (r: Worker)
    ensures r.id == w.id && r.name == d.name
    ensures d.dailyWage.Some? ==> r.dailyWage == d.dailyWage.value
    ensures d.dailyWage.None? ==> r.dailyWage == w.dailyWage
  {
    Worker(w.id, d.name,
           if d.photoUrl.Some? then d.photoUrl else w.photoUrl,
           if d.dailyWage.Some? then d.dailyWage.value else w.dailyWage,
           if d.phone.Some? then d.phone else w.phone,
           if d.address.Some? then d.address else w.address)
  }

  /** The wage payload changes the wage and nothing else. */
  lemma WagePayloadChangesOnlyWage(w: Worker, newWage: int)
    ensures ApplyUpdate(w, WagePayload(w, newWage)) == w.(dailyWage := newWage)
  {
  }

  /** `handleUpdateDailyWage(workerId, newWage)` on the attendance pages: the
      target id and payload sent, or nothing when no listed worker has the
      id. */
  function UpdateDailyWage(workers: seq<Worker>, workerId: RowId, newWage: int): (sent: Option<(RowId, WorkerData)>)
    ensures sent.None? <==> forall i :: 0 <= i < |workers| ==> workers[i].id != workerId
    ensures sent.Some? ==> sent.value.0 == workerId
  {
    match FindWorker(workers, workerId)
    case None => None
    case Some(w) => Some((workerId, WagePayload(w, newWage)))
  }

  /** What the edit writes for the first listed worker with the id is that
      worker with only the wage changed. */
  lemma UpdateDailyWageSpec(workers: seq<Worker>, k: nat, newWage: int)
    requires k < |workers|
    requires forall j :: 0 <= j < k ==> workers[j].id != workers[k].id
    ensures UpdateDailyWage(workers, workers[k].id, newWage).Some?
    ensures ApplyUpdate(workers[k], UpdateDailyWage(workers, workers[k].id, newWage).value.1) == workers[k].(dailyWage := newWage)
  {
    FindWorkerFirst(workers, workers[k].id, k);
  }
}
