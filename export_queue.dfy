/** The export queue: `ExportManager` with its queue of jobs, the flag that
    says a worker thread is alive, the status of every job and the set of
    cancellation requests, and the steps that `start_export`,
    `cancel_export`, `get_export_status`, `ensure_export_worker` and the
    worker loop `export_worker` take on it. Each step is one critical
    section of the source's mutex, modelled as one method, except
    `StartExport`, which joins the section that records and queues the job
    to the one `ensure_export_worker` takes right after it. Threads are not
    part of this model, so an interleaving of the threads is a sequence of
    these calls. */
module ExportQueue {
  import opened Text
  import opened ExportRun

  /** The `state` strings of `ExportStatus`: "queued", "running",
      "completed", "failed" and "cancelled". */
  datatype JobState = Queued | Running | Completed | Failed | Cancelled

  datatype ExportStatus = ExportStatus(jobId: string, state: JobState, progress: real, error: Option<string>)

  datatype ExportJob = ExportJob(jobId: string, request: ExportRequest)

  class ExportManager {
    var queue: seq<ExportJob>
    var running: bool
    var statuses: map<string, ExportStatus>
    var cancellations: map<string, bool>

    /** Every status is filed under its own job id with a progress in
        [0, 1], every queued job has a status, and only `true` is ever
        recorded as a cancellation. */
    ghost predicate Valid()
      reads this
    {
      && (forall id :: id in statuses ==> statuses[id].jobId == id && 0.0 <= statuses[id].progress <= 1.0)
      && (forall i :: 0 <= i < |queue| ==> queue[i].jobId in statuses)
      && (forall id :: id in cancellations ==> cancellations[id])
    }

    /** A queued job always has a live worker to pick it up. */
    predicate WorkerCoversQueue()
      reads this
    {
      queue != [] ==> running
    }

    /** `ExportState::new` */
    constructor ()
      ensures Valid() && WorkerCoversQueue()
      ensures queue == [] && !running && statuses == map[] && cancellations == map[]
    {
      queue := [];
      running := false;
      statuses := map[];
      cancellations := map[];
    }

    /** `cancellations.get(job_id).copied().unwrap_or(false)`: what the
        polling loop of a running job checks. */
    function IsCancelled(jobId: string): (cancelled: bool)
      reads this
      ensures cancelled <==> jobId in cancellations && cancellations[jobId]
      ensures Valid() ==> (cancelled <==> jobId in cancellations)
    {
      jobId in cancellations && cancellations[jobId]
    }

    /** `get_export_status`: the job's current status, or `export_not_found`
        for an id that was never started nor cancelled while known. */
    function GetExportStatus(jobId: string): (r: Result<ExportStatus>)
      reads this
      ensures r.Ok? <==> jobId in statuses
      ensures r.Ok? ==> r.value == statuses[jobId]
      ensures r.Ok? && Valid() ==> r.value.jobId == jobId && 0.0 <= r.value.progress <= 1.0
      ensures r.Err? ==> r.error == "export_not_found"
    {
      if jobId in statuses then Ok(statuses[jobId]) else Err("export_not_found")
    }

    /** `ensure_export_worker`: claims the worker flag; a worker thread is
        to be spawned exactly when no worker was running. */
    method EnsureExportWorker() returns (spawn: bool)
      modifies this
      ensures spawn == !old(running)
      ensures running
      ensures queue == old(queue) && statuses == old(statuses) && cancellations == old(cancellations)
    {
      if running {
        spawn := false;
      } else {
        running := true;
        spawn := true;
      }
    }

    /** `start_export` with `jobId` as the id it derives from the clock: the
        job is recorded as queued with progress 0 and appended to the queue,
        and a worker is spawned unless one is running. The source takes
        the lock twice here, once to record and queue the job and once in
        `ensure_export_worker`; another thread may act between the two,
        which this one method does not show. A repeated id replaces the
        earlier status and queues the job once more. */
    method StartExport(jobId: string, request: ExportRequest) returns (spawn: bool)
      requires Valid()
      modifies this
      ensures Valid() && WorkerCoversQueue()
      ensures statuses == old(statuses)[jobId := ExportStatus(jobId, Queued, 0.0, None)]
      ensures queue == old(queue) + [ExportJob(jobId, request)]
      ensures cancellations == old(cancellations)
      ensures running && spawn == !old(running)
      ensures GetExportStatus(jobId) == Ok(ExportStatus(jobId, Queued, 0.0, None))
    {
      statuses := statuses[jobId := ExportStatus(jobId, Queued, 0.0, None)];
      queue := queue + [ExportJob(jobId, request)];
      spawn := EnsureExportWorker();
    }

    /** `cancel_export`: records the request and marks a known job
        cancelled, whatever state it was in; an unknown id still gets its
        cancellation recorded. The job's place in the queue and its progress
        are left as they were. */
    method CancelExport(jobId: string)
      requires Valid()
      modifies this
      ensures Valid()
      ensures cancellations == old(cancellations)[jobId := true]
      ensures jobId in old(statuses) ==> statuses == old(statuses)[jobId := old(statuses)[jobId].(state := Cancelled)]
      ensures jobId !in old(statuses) ==> statuses == old(statuses)
      ensures queue == old(queue) && running == old(running)
      ensures IsCancelled(jobId)
    {
      cancellations := cancellations[jobId := true];
      if jobId in statuses {
        statuses := statuses[jobId := statuses[jobId].(state := Cancelled)];
      }
    }

    /** The worker's first critical section, `queue.pop_front()`, as the
        source writes it: the worker flag is left set even when the queue
        is empty. */
    method PopJob() returns (job: Option<ExportJob>)
      requires Valid()
      modifies this
      ensures Valid()
      ensures old(queue) == [] ==> job.None? && queue == []
      ensures old(queue) != [] ==> job == Some(old(queue)[0]) && queue == old(queue)[1..]
      ensures job.Some? ==> job.value.jobId in statuses
      ensures running == old(running) && statuses == old(statuses) && cancellations == old(cancellations)
    {
      if queue == [] {
        job := None;
      } else {
        job := Some(queue[0]);
        queue := queue[1..];
      }
    }

    /** The worker's exit when it found the queue empty, in a critical
        section of its own. */
    method StopWorker()
      modifies this
      ensures !running
      ensures queue == old(queue) && statuses == old(statuses) && cancellations == old(cancellations)
    {
      running := false;
    }

    /** The worker's first critical section with the exit folded in: the
        next job, or, when there is none, the worker flag is cleared under
        the same lock, so that no job can be queued between the check and
        the exit. */
    method TakeNextJob() returns (job: Option<ExportJob>)
      requires Valid() && running
      modifies this
      ensures Valid() && WorkerCoversQueue()
      ensures old(queue) == [] ==> job.None? && queue == [] && !running
      ensures old(queue) != [] ==> job == Some(old(queue)[0]) && queue == old(queue)[1..] && running
      ensures job.Some? ==> job.value.jobId in statuses
      ensures statuses == old(statuses) && cancellations == old(cancellations)
    {
      if queue == [] {
        job := None;
        running := false;
      } else {
        job := Some(queue[0]);
        queue := queue[1..];
      }
    }

    /** The worker records a picked-up job as running with progress 0,
        replacing any earlier state, `cancelled` included. */
    method MarkRunning(jobId: string)
      requires Valid()
      modifies this
      ensures Valid()
      ensures statuses == old(statuses)[jobId := ExportStatus(jobId, Running, 0.0, None)]
      ensures queue == old(queue) && running == old(running) && cancellations == old(cancellations)
    {
      statuses := statuses[jobId := ExportStatus(jobId, Running, 0.0, None)];
    }

    /** The reader thread records a progress update as a running status. */
    method ReportProgress(jobId: string, progress: real)
      requires Valid() && 0.0 <= progress <= 1.0
      modifies this
      ensures Valid()
      ensures statuses == old(statuses)[jobId := ExportStatus(jobId, Running, progress, None)]
      ensures queue == old(queue) && running == old(running) && cancellations == old(cancellations)
    {
      statuses := statuses[jobId := ExportStatus(jobId, Running, progress, None)];
    }

    /** The worker records the outcome of `run_export_job`: completed with
        progress 1, or failed with the error and the progress of the
        worker's own copy of the status, which is still 0. The job's
        cancellation request is removed. */
    method FinishJob(jobId: string, outcome: Result<()>)
      requires Valid()
      modifies this
      ensures Valid()
      ensures outcome.Ok? ==> statuses == old(statuses)[jobId := ExportStatus(jobId, Completed, 1.0, None)]
      ensures outcome.Err? ==> statuses == old(statuses)[jobId := ExportStatus(jobId, Failed, 0.0, Some(outcome.error))]
      ensures cancellations == old(cancellations) - {jobId}
      ensures queue == old(queue) && running == old(running)
      ensures !IsCancelled(jobId)
    {
      var status :=
        if outcome.Ok? then ExportStatus(jobId, Completed, 1.0, None)
        else ExportStatus(jobId, Failed, 0.0, Some(outcome.error));
      statuses := statuses[jobId := status];
      cancellations := cancellations - {jobId};
    }
  }

  /** A job cancelled while still queued is picked up all the same: it is
      marked running, and its polling loop then sees the cancellation, so
      it ends failed with `export_cancelled` and the cancellation state is
      gone, whatever ffmpeg did meanwhile. */
  method CancelledWhileQueued(jobId: string, request: ExportRequest, exited: Option<Exit>)
    returns (afterCancel: JobState, afterPickup: JobState, final: ExportStatus)
    ensures afterCancel == Cancelled && afterPickup == Running
    ensures final == ExportStatus(jobId, Failed, 0.0, Some("export_cancelled"))
  {
    var m := new ExportManager();
    var spawn := m.StartExport(jobId, request);
    m.CancelExport(jobId);
    afterCancel := m.statuses[jobId].state;
    var job := m.PopJob();
    m.MarkRunning(job.value.jobId);
    afterPickup := m.statuses[jobId].state;
    var outcome := RunExportJob(true, [Poll(m.IsCancelled(jobId), exited)]);
    m.FinishJob(jobId, outcome.value);
    final := m.statuses[jobId];
  }

  /** A cancellation that arrives after the job completed still overwrites
      its state: the job reads as cancelled with progress 1 and no error,
      and the stale cancellation request stays recorded. */
  method CancelledAfterCompletion(jobId: string, request: ExportRequest)
    returns (status: Result<ExportStatus>, staleRequest: bool)
    ensures status == Ok(ExportStatus(jobId, Cancelled, 1.0, None))
    ensures staleRequest
  {
    var m := new ExportManager();
    var spawn := m.StartExport(jobId, request);
    var job := m.PopJob();
    m.MarkRunning(job.value.jobId);
    m.FinishJob(jobId, Ok(()));
    m.CancelExport(jobId);
    status := m.GetExportStatus(jobId);
    staleRequest := m.IsCancelled(jobId);
  }

  /** A progress update that arrives after a cancellation turns the job
      back into a running one until its polling loop notices. */
  method ProgressAfterCancel(jobId: string, request: ExportRequest, progress: real)
    returns (status: Result<ExportStatus>, cancelRecorded: bool)
    requires 0.0 <= progress <= 1.0
    ensures status == Ok(ExportStatus(jobId, Running, progress, None))
    ensures cancelRecorded
  {
    var m := new ExportManager();
    var spawn := m.StartExport(jobId, request);
    var job := m.PopJob();
    m.MarkRunning(job.value.jobId);
    m.CancelExport(jobId);
    m.ReportProgress(jobId, progress);
    status := m.GetExportStatus(jobId);
    cancelRecorded := m.IsCancelled(jobId);
  }

  /** The worker's exit as written: between the worker finding the queue
      empty and clearing the flag, `start_export` queues a job and sees the
      flag still set, so spawns no worker. The job is left queued with no
      worker alive. */
  method StrandedJobAsWritten(first: ExportRequest, second: ExportRequest)
    returns (queued: nat, workerAlive: bool, spawnedForSecond: bool)
    ensures queued == 1 && !workerAlive && !spawnedForSecond
  {
    var m := new ExportManager();
    var spawn := m.StartExport("1", first);
    var job := m.PopJob();
    m.MarkRunning(job.value.jobId);
    m.FinishJob(job.value.jobId, Ok(()));
    var none := m.PopJob();
    spawnedForSecond := m.StartExport("2", second);
    m.StopWorker();
    queued := |m.queue|;
    workerAlive := m.running;
  }

  /** With the exit folded into `TakeNextJob`, the same interleaving
      spawns a new worker for the second job. */
  method NoStrandedJobCorrected(first: ExportRequest, second: ExportRequest)
    returns (queued: nat, workerAlive: bool, spawnedForSecond: bool)
    ensures queued == 1 && workerAlive && spawnedForSecond
  {
    var m := new ExportManager();
    var spawn := m.StartExport("1", first);
    var job := m.TakeNextJob();
    m.MarkRunning(job.value.jobId);
    m.FinishJob(job.value.jobId, Ok(()));
    var none := m.TakeNextJob();
    spawnedForSecond := m.StartExport("2", second);
    queued := |m.queue|;
    workerAlive := m.running;
  }
}
