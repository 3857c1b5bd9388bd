/** What each call of the batch service means for the rows and the status of a job, entry by entry. */
module BatchCalls {
  import opened Util
  import opened BatchModel
  import opened BatchRuns
  import BatchService

  function Mutated(j: Job, e: Event, now: Time): (r: Job)
    ensures |r.rows| == |j.rows|
  {
    match Mutate(j, e, now) case Failure(_) => j case Success(after) => after
  }

  lemma StepHead(j: Job, e: Event, now: Time)
    ensures Step(j, e, now).head == match Mutate(j, e, now) case Failure(_) => j.head case Success(after) => after.head
  {
    var r := Mutate(j, e, now);
    if r.Success? { StampKeepsPayload(j, r.value, now); }
  }

  function FirstFew(text: string): string { if |text| > 500 then text[..500] else text }

  predicate Ended(d: RowData) { d.status in {RowCompleted, RowFailed, RowCanceled} }

  // ---- claims ---------------------------------------------------------------------------------------------

  /** A queued row without a retry time, or whose retry time has come. */
  predicate MayRun(d: RowData, now: Time)
  {
    d.status == RowQueued && (d.nextAttemptAt.Some? ==> now >= d.nextAttemptAt.value)
  }

  predicate HasImages(d: RowData) { d.imageCount == 0 || d.assetsReady || |d.imageFiles| > 0 }

  predicate Active(j: Job) { j.head.status in {JobQueued, JobRunning} && j.head.canceledAt == None }

  /** Row `i` is the first that may run and has its images. */
  ghost predicate FirstComplete(j: Job, now: Time, i: nat)
  {
    && Active(j) && i < |j.rows| && MayRun(j.rows[i].data, now) && HasImages(j.rows[i].data)
    && forall k :: 0 <= k < i ==> !(MayRun(j.rows[k].data, now) && HasImages(j.rows[k].data))
  }

  /** No row that may run has its images, and row `i` is the first that lacks them. */
  ghost predicate FirstIncomplete(j: Job, now: Time, i: nat)
  {
    && Active(j) && i < |j.rows| && MayRun(j.rows[i].data, now)
    && (forall k :: 0 <= k < |j.rows| ==> !(MayRun(j.rows[k].data, now) && HasImages(j.rows[k].data)))
    && forall k :: 0 <= k < i ==> !MayRun(j.rows[k].data, now)
  }

  /** What a claim answers: the first complete row, else the first incomplete one, else nothing. */
  lemma ClaimPicks(j: Job, now: Time)
    ensures forall i: nat :: FirstComplete(j, now, i) <==> ClaimPick(j, now) == Create(i)
    ensures forall i: nat :: FirstIncomplete(j, now, i) <==> ClaimPick(j, now) == AskAssets(i)
    ensures ClaimPick(j, now) == NothingDue <==>
      !Active(j) || forall k :: 0 <= k < |j.rows| ==> !MayRun(j.rows[k].data, now)
  {
    forall k | 0 <= k < |j.rows|
      ensures Due(j.rows[k].data, now) <==> MayRun(j.rows[k].data, now)
      ensures LacksAssets(j.rows[k].data) <==> !HasImages(j.rows[k].data)
    {
    }
  }

  /** The rows of a new job, one for each request. */
  ghost predicate IsNew(j: Job, requests: seq<BatchService.RowRequest>, created: Time)
  {
    && j.head.status == JobQueued && j.head.canceledAt == None && |j.rows| == |requests|
    && forall i :: 0 <= i < |requests| ==> j.rows[i] == BatchService.QueuedRow(i + 1, requests[i], created)
  }

  predicate Complete(q: BatchService.RowRequest) { q.imageCount <= 0 || q.files != [] }

  /** A new job starts at once: with the first request that brought its images, else by asking for the first one's. */
  lemma NewJobIsClaimed(j: Job, requests: seq<BatchService.RowRequest>, created: Time, now: Time)
    requires IsNew(j, requests, created) && requests != []
    ensures forall i: nat ::
      (i < |requests| && Complete(requests[i]) && forall k :: 0 <= k < i ==> !Complete(requests[k]))
      <==> ClaimPick(j, now) == Create(i)
    ensures (forall k :: 0 <= k < |requests| ==> !Complete(requests[k])) <==> ClaimPick(j, now) == AskAssets(0)
  {
    ClaimPicks(j, now);
    forall k | 0 <= k < |j.rows|
      ensures MayRun(j.rows[k].data, now) && (HasImages(j.rows[k].data) <==> Complete(requests[k]))
    {
      assert j.rows[k] == BatchService.QueuedRow(k + 1, requests[k], created);
      NewRowMeans(k + 1, requests[k], created);
    }
    forall i: nat
      ensures FirstComplete(j, now, i) <==>
        (i < |requests| && Complete(requests[i]) && forall k :: 0 <= k < i ==> !Complete(requests[k]))
    {
    }
    assert FirstIncomplete(j, now, 0) <==> forall k :: 0 <= k < |requests| ==> !Complete(requests[k]);
  }

  lemma NewRowMeans(index: int, q: BatchService.RowRequest, created: Time)
    ensures var d := BatchService.QueuedRow(index, q, created).data;
      && d.index == index && d.status == RowQueued && d.nextAttemptAt == None && d.createAttempts == 0 && d.taskId == ""
      && (HasImages(d) <==> Complete(q))
      && (forall f :: f in d.imageFiles <==> f in q.files && f != "")
      && |d.prompt| <= 4000 && d.prompt == if |Strip(q.prompt)| > 4000 then Strip(q.prompt)[..4000] else Strip(q.prompt)
  {
  }

  /** A claim on an active job that finds nothing means that every queued row waits for its retry time. */
  lemma NothingClaimedMeansWaiting(j: Job, now: Time)
    requires Active(j) && ClaimPick(j, now) == NothingDue
    ensures forall k :: 0 <= k < |j.rows| && j.rows[k].data.status == RowQueued ==>
      j.rows[k].data.nextAttemptAt.Some? && now < j.rows[k].data.nextAttemptAt.value
  {
    ClaimPicks(j, now);
    forall k | 0 <= k < |j.rows| && j.rows[k].data.status == RowQueued
      ensures j.rows[k].data.nextAttemptAt.Some? && now < j.rows[k].data.nextAttemptAt.value
    {
      assert !MayRun(j.rows[k].data, now);
    }
  }

  /** What a claim makes of each row, and of the job. */
  lemma ClaimMeans(j: Job, now: Time, i: nat)
    requires i < |j.rows|
    ensures var d := j.rows[i].data;
      Step(j, Claim, now).rows[i].data ==
        if FirstComplete(j, now, i)
        then d.(status := Creating, claimedAt := Some(now), nextAttemptAt := None, error := "")
        else if FirstIncomplete(j, now, i)
        then d.(status := AwaitingAssets, assetRequestedAt := Some(now), claimedAt := None, error := "")
        else d
    ensures Step(j, Claim, now).head.status ==
      if Active(j) && exists k :: 0 <= k < |j.rows| && MayRun(j.rows[k].data, now) then JobRunning else j.head.status
  {
    ClaimPicks(j, now);
    StepPayload(j, Claim, now, i);
    StepHead(j, Claim, now);
  }

  // ---- failed attempts ----------------------------------------------------------------------------------------

  /** The seconds to wait after the given number of failed attempts. */
  function WaitAfter(attempts: nat): int
    requires attempts < 5
  {
    [1, 2, 4, 8, 16][attempts]
  }

  lemma BackoffMeans(attempts: nat)
    requires attempts < 5
    ensures Min(30, Pow2(attempts)) == WaitAfter(attempts)
  {
    assert Pow2(1) == 2 && Pow2(2) == 4 && Pow2(3) == 8 && Pow2(4) == 16;
  }

  /** The fifth failure, a refused retry or a canceled job end a row; any other failure sends it back to wait. */
  function AfterFailure(d: RowData, error: string, retry: bool, canceled: bool, now: Time): RowData
  {
    var attempts := d.createAttempts + 1;
    if d.status in {RowCompleted, RowFailed, RowCanceled} then d
    else if retry && attempts < 5 && !canceled then
      d.(createAttempts := attempts, status := RowQueued, taskId := "", claimedAt := None,
         nextAttemptAt := Some(now + WaitAfter(attempts)), error := FirstFew(error))
    else
      d.(createAttempts := attempts, status := RowFailed, taskId := "", claimedAt := None,
         error := FirstFew(error), finishedAt := Some(now))
  }

  lemma FailedRowMeans(j: Job, i: nat, error: string, retry: bool, now: Time, k: nat)
    requires i < |j.rows| && k < |j.rows|
    ensures FailedJob(j, i, error, retry, now).rows[k].data ==
      if k == i then AfterFailure(j.rows[i].data, error, retry, j.head.canceledAt.Some?, now) else j.rows[k].data
  {
    if j.rows[i].data.createAttempts + 1 < 5 { BackoffMeans(j.rows[i].data.createAttempts + 1); }
  }

  lemma FailureMeans(j: Job, i: nat, error: string, retry: bool, now: Time, k: nat)
    requires UniqueIndices(j.rows) && i < |j.rows| && k < |j.rows|
    ensures Step(j, FailOrRequeue(j.rows[i].data.index, error, retry), now).rows[k].data ==
      if k == i then AfterFailure(j.rows[i].data, error, retry, j.head.canceledAt.Some?, now) else j.rows[k].data
  {
    FindRowIs(j.rows, i, j.rows[i].data.index);
    StepPayload(j, FailOrRequeue(j.rows[i].data.index, error, retry), now, k);
    FailedRowMeans(j, i, error, retry, now, k);
  }

  /** A row that is sent back is not claimed before its waiting time is over, and may be claimed from then on. */
  lemma RequeuedRowWaits(j: Job, i: nat, error: string, failedAt: Time, now: Time)
    requires UniqueIndices(j.rows) && i < |j.rows| && !Ended(j.rows[i].data)
    requires j.rows[i].data.createAttempts + 1 < 5 && j.head.canceledAt == None
    ensures var d := j.rows[i].data;
      var r := Step(j, FailOrRequeue(d.index, error, true), failedAt);
      var due := failedAt + WaitAfter(d.createAttempts + 1);
      && (now < due ==> Step(r, Claim, now).rows[i].data == r.rows[i].data && r.rows[i].data.status == RowQueued)
      && (now >= due ==> MayRun(r.rows[i].data, now))
  {
    FailureMeans(j, i, error, true, failedAt, i);
    ClaimMeans(Step(j, FailOrRequeue(j.rows[i].data.index, error, true), failedAt), now, i);
  }

  // ---- uploads and created tasks ------------------------------------------------------------------------------

  predicate UploadFits(d: RowData, files: seq<string>, names: seq<string>)
  {
    d.imageCount > 0 && |files| == d.imageCount && |names| == d.imageCount
  }

  function StoredName(name: string): string { var t := Strip(name); if |t| > 180 then t[..180] else t }

  /** An upload is refused by the first check that fails, in this order, and otherwise queues the row again. */
  lemma UploadMeans(j: Job, i: nat, owner: string, files: seq<string>, names: seq<string>, now: Time)
    requires UniqueIndices(j.rows) && i < |j.rows|
    ensures var d := j.rows[i].data;
      var e := MarkAssetsReady(owner, d.index, files, names);
      var r := Step(j, e, now);
      if owner != j.head.owner then Mutate(j, e, now) == Failure(PermissionDenied) && r == j
      else if j.head.canceledAt.Some? then Mutate(j, e, now) == Failure(JobIsCanceled) && r == j
      else if |d.taskId| > 0 then Mutate(j, e, now) == Failure(NoSuchRow) && r == j
      else if !UploadFits(d, files, names) then Mutate(j, e, now) == Failure(ImageCountMismatch) && r == j
      else
        && r.head == j.head.(status := JobRunning) && |r.rows[i].data.imageNames| == |names|
        && (forall n :: 0 <= n < |names| ==> r.rows[i].data.imageNames[n] == StoredName(names[n]))
        && r.rows[i].data == d.(status := RowQueued, imageFiles := files, imageNames := r.rows[i].data.imageNames,
             assetsReady := true, assetRequestedAt := None, assetsUploadedAt := Some(now), error := "")
        && forall k :: 0 <= k < |j.rows| && k != i ==> r.rows[k].data == j.rows[k].data
  {
    var d := j.rows[i].data;
    var e := MarkAssetsReady(owner, d.index, files, names);
    FindRowIs(j.rows, i, d.index);
    StepHead(j, e, now);
    forall k | 0 <= k < |j.rows|
      ensures Step(j, e, now).rows[k].data == Mutated(j, e, now).rows[k].data
    {
      StepPayload(j, e, now, k);
    }
  }

  /** A created task is recorded on its row, whatever the row was doing. */
  lemma CreationMeans(j: Job, i: nat, taskId: string, now: Time)
    requires UniqueIndices(j.rows) && i < |j.rows|
    ensures var d := j.rows[i].data;
      var r := Step(j, FinishCreation(d.index, taskId), now);
      && r.head == j.head.(status := if j.head.canceledAt.Some? then Canceling else JobRunning)
      && r.rows[i].data ==
           d.(status := Running, taskId := taskId, createdAt := Some(now), claimedAt := None, error := "")
      && forall k :: 0 <= k < |j.rows| && k != i ==> r.rows[k].data == j.rows[k].data
  {
    var e := FinishCreation(j.rows[i].data.index, taskId);
    FindRowIs(j.rows, i, j.rows[i].data.index);
    StepHead(j, e, now);
    forall k | 0 <= k < |j.rows| ensures Step(j, e, now).rows[k].data == CreatedJob(j, i, taskId, now).rows[k].data {
      StepPayload(j, e, now, k);
    }
  }

  // ---- whole jobs ------------------------------------------------------------------------------------------------

  /** A cancellation ends each row that has no task yet, and waits for the running ones. */
  lemma CancelMeans(j: Job, owner: string, reason: string, now: Time, i: nat)
    requires i < |j.rows|
    ensures var d := j.rows[i].data;
      var r := Step(j, Cancel(owner, reason), now);
      if owner != j.head.owner then r == j
      else
        && r.rows[i].data == (
          if d.status in {RowQueued, AwaitingAssets, Creating} && |d.taskId| == 0 then
            d.(status := RowCanceled, error := FirstFew(if |reason| > 0 then reason else "用户停止批量生成"),
               finishedAt := Some(now))
          else d)
        && r.head == j.head.(canceledAt := Some(now), status :=
             if exists k :: 0 <= k < |j.rows| && j.rows[k].data.status == Running then Canceling else JobCanceled)
  {
    var e := Cancel(owner, reason);
    StepPayload(j, e, now, i);
    StepHead(j, e, now);
    if owner == j.head.owner {
      var c := CanceledJob(j, reason, now);
      var running := (d: RowData) => d.status == Running;
      forall k | 0 <= k < |j.rows| ensures running(c.rows[k].data) <==> j.rows[k].data.status == Running {
      }
    }
  }

  /** A recovery sends back exactly the rows that were claimed long ago and have no task. */
  lemma RecoveryMeans(j: Job, cutoff: Time, now: Time, i: nat)
    requires i < |j.rows|
    ensures var d := j.rows[i].data;
      Step(j, RecoverStale(cutoff), now).rows[i].data ==
        if d.status == Creating && |d.taskId| == 0 && !(d.claimedAt.Some? && cutoff < d.claimedAt.value)
        then d.(status := RowQueued, claimedAt := None, error := "") else d
    ensures Step(j, RecoverStale(cutoff), now).head == j.head
  {
    StepPayload(j, RecoverStale(cutoff), now, i);
    StepHead(j, RecoverStale(cutoff), now);
  }

  /** What the report about its task makes of a row. */
  function Reported(d: RowData, task: Task, now: Time): RowData
  {
    if |task.videoUrl| > 0 then
      d.(status := RowCompleted, videoUrl := task.videoUrl, error := "", finishedAt := Some(now))
    else if task.status == "failed" then
      d.(status := RowFailed, error := FirstFew(if |task.error| > 0 then task.error else "生成失败"),
         finishedAt := Some(now))
    else if task.status == "canceled" then
      d.(status := RowCanceled, error := FirstFew(if |task.error| > 0 then task.error else "用户取消生成"),
         finishedAt := Some(now))
    else d.(status := Running)
  }

  lemma ReportedRow(d: RowData, tasks: map<string, Task>, now: Time)
    ensures ReconciledRow(d, tasks, now) ==
      if |d.taskId| > 0 && !Ended(d) && d.taskId in tasks then Reported(d, tasks[d.taskId], now) else d
  {
  }

  lemma ReportPayload(j: Job, tasks: map<string, Task>, now: Time, i: nat)
    requires i < |j.rows|
    ensures Step(j, Reconcile(tasks), now).rows[i].data == ReconciledRow(j.rows[i].data, tasks, now)
  {
    StepPayload(j, Reconcile(tasks), now, i);
  }

  /** A report changes exactly the unfinished rows whose task it mentions. */
  lemma ReportMeans(j: Job, tasks: map<string, Task>, now: Time, i: nat)
    requires i < |j.rows|
    ensures var d := j.rows[i].data;
      Step(j, Reconcile(tasks), now).rows[i].data ==
        if |d.taskId| > 0 && !Ended(d) && d.taskId in tasks then Reported(d, tasks[d.taskId], now) else d
  {
    ReportPayload(j, tasks, now, i);
    ReportedRow(j.rows[i].data, tasks, now);
  }

  /** The status that follows from the rows, as every report and every failed attempt leaves it. */
  ghost predicate StatusFollows(before: JobHead, rows: seq<Row>, after: JobHead, now: Time)
  {
    if |rows| > 0 && forall k :: 0 <= k < |rows| ==> Ended(rows[k].data) then
      && after.finishedAt == Some(now)
      && after.status == (
        if before.canceledAt.Some? && forall k :: 0 <= k < |rows| ==> rows[k].data.status == RowCanceled
        then JobCanceled else JobCompleted)
    else
      && after.finishedAt == before.finishedAt
      && after.status == (
        if exists k :: 0 <= k < |rows| && rows[k].data.status in {Creating, Running} then JobRunning else JobQueued)
  }

  lemma FinishedMeans(j: Job, now: Time)
    ensures StatusFollows(j.head, j.rows, Finished(j, now).head, now)
    ensures Finished(j, now).rows == j.rows && Finished(j, now).head.canceledAt == j.head.canceledAt
  {
  }

  lemma StampedStatus(j: Job, mid: Job, now: Time)
    requires |mid.rows| == |j.rows| && mid.head == j.head
    ensures var r := Stamp(j, Finished(mid, now), now); StatusFollows(j.head, r.rows, r.head, now)
  {
    FinishedMeans(mid, now);
    StampKeepsPayload(j, Finished(mid, now), now);
    var r := Stamp(j, Finished(mid, now), now);
    SameStatuses(mid.head, mid.rows, r.rows, Finished(mid, now).head, now);
  }

  function Tasked(j: Job, tasks: map<string, Task>, now: Time): (r: Job)
    ensures r.head == j.head && |r.rows| == |j.rows|
  {
    j.(rows := MapRows((d: RowData) => ReconciledRow(d, tasks, now), j.rows))
  }

  lemma ReportIs(j: Job, tasks: map<string, Task>, now: Time)
    ensures Step(j, Reconcile(tasks), now) == Stamp(j, Finished(Tasked(j, tasks, now), now), now)
  {
  }

  /** After a report the status of the job follows from its rows. */
  lemma StatusAfterReport(j: Job, tasks: map<string, Task>, now: Time)
    ensures var r := Step(j, Reconcile(tasks), now); StatusFollows(j.head, r.rows, r.head, now)
  {
    ReportIs(j, tasks, now);
    StampedStatus(j, Tasked(j, tasks, now), now);
  }

  lemma SameStatuses(before: JobHead, rows: seq<Row>, stamped: seq<Row>, after: JobHead, now: Time)
    requires StatusFollows(before, rows, after, now) && |rows| == |stamped|
    requires forall k :: 0 <= k < |rows| ==> stamped[k].data == rows[k].data
    ensures StatusFollows(before, stamped, after, now)
  {
  }

  function Attempted(j: Job, i: nat, error: string, retry: bool, now: Time): (r: Job)
    requires i < |j.rows|
    ensures r.head == j.head && |r.rows| == |j.rows|
  {
    j.(rows := Replace(j.rows, i, FailedOnce(j.rows[i].data, error, retry, j.head.canceledAt.Some?, now)))
  }

  lemma FailureIs(j: Job, i: nat, error: string, retry: bool, now: Time)
    requires UniqueIndices(j.rows) && i < |j.rows| && !Ended(j.rows[i].data)
    ensures Step(j, FailOrRequeue(j.rows[i].data.index, error, retry), now)
         == Stamp(j, Finished(Attempted(j, i, error, retry, now), now), now)
  {
    FindRowIs(j.rows, i, j.rows[i].data.index);
  }

  /** So it does after a failed attempt. */
  lemma StatusAfterFailure(j: Job, i: nat, error: string, retry: bool, now: Time)
    requires UniqueIndices(j.rows) && i < |j.rows| && !Ended(j.rows[i].data)
    ensures var r := Step(j, FailOrRequeue(j.rows[i].data.index, error, retry), now);
      StatusFollows(j.head, r.rows, r.head, now)
  {
    FailureIs(j, i, error, retry, now);
    StampedStatus(j, Attempted(j, i, error, retry, now), now);
  }

  // ---- what clients see -----------------------------------------------------------------------------------------

  /** A row is shown as it is stored; assets are asked for while a waiting row lacks them. */
  lemma ViewMeans(row: Row)
    ensures var v, d := ViewRow(row), row.data;
      && (v.index, v.prompt, v.status, v.taskId) == (d.index, d.prompt, d.status, d.taskId)
      && (v.error, v.videoUrl, v.imageCount, v.revision) == (d.error, d.videoUrl, d.imageCount, row.revision)
      && (v.assetsReady <==> HasImages(d))
      && (v.assetsRequired <==> d.status == AwaitingAssets && !d.assetsReady && |d.imageFiles| == 0)
  {
  }
}
