/** What each public function of the batch service does to one stored job. */
module BatchModel {
  import opened Util

  type Time = int

  datatype RowStatus = RowQueued | AwaitingAssets | Creating | Running | RowCompleted | RowFailed | RowCanceled

  datatype JobStatus = JobQueued | JobRunning | Canceling | JobCompleted | JobCanceled

  /** Every entry of a row dictionary except `revision` and `updated_at`. */
  datatype RowData = RowData(
    index: int, prompt: string, imageCount: nat, imageFiles: seq<string>, imageNames: seq<string>,
    assetsReady: bool, status: RowStatus, taskId: string, error: string, videoUrl: string,
    createAttempts: nat, claimedAt: Option<Time>, nextAttemptAt: Option<Time>, createdAt: Option<Time>,
    finishedAt: Option<Time>, assetRequestedAt: Option<Time>, assetsUploadedAt: Option<Time>)

  datatype Row = Row(data: RowData, revision: nat, updatedAt: Time)

  /** Every entry of a job dictionary except `rows`, `revision` and `updated_at`. */
  datatype JobHead = JobHead(owner: string, status: JobStatus, canceledAt: Option<Time>, finishedAt: Option<Time>)

  datatype Job = Job(head: JobHead, rows: seq<Row>, revision: nat, updatedAt: Time)

  datatype BatchError = PermissionDenied | JobIsCanceled | NoSuchRow | ImageCountMismatch

  datatype Task = Task(status: string, videoUrl: string, error: string)

  datatype Event =
    | Cancel(owner: string, reason: string)
    | RecoverStale(cutoff: Time)
    | Claim
    | MarkAssetsReady(owner: string, index: int, files: seq<string>, names: seq<string>)
    | FinishCreation(index: int, taskId: string)
    | FailOrRequeue(index: int, error: string, retry: bool)
    | Reconcile(tasks: map<string, Task>)

  const MAX_CREATE_ATTEMPTS: nat := 5
  const ERROR_LIMIT: nat := 500
  const NAME_LIMIT: nat := 180
  const DEFAULT_CANCEL_REASON := "用户停止批量生成"

  predicate Terminal(s: RowStatus) { s == RowCompleted || s == RowFailed || s == RowCanceled }

  /** The states a cancellation has to empty. */
  predicate Open(s: RowStatus) { s == RowQueued || s == AwaitingAssets || s == Creating }

  predicate JobTerminal(s: JobStatus) { s == JobCompleted || s == JobCanceled }

  function With(row: Row, d: RowData): Row { row.(data := d) }

  /** Rewrites every row dictionary by the same rule. */
  function MapRows(f: RowData -> RowData, rows: seq<Row>): (r: seq<Row>)
    ensures |r| == |rows|
    ensures forall i :: 0 <= i < |r| ==> r[i] == With(rows[i], f(rows[i].data))
  {
    seq(|rows|, i requires 0 <= i < |rows| => With(rows[i], f(rows[i].data)))
  }

  /** The position of the first row at or after `from` that satisfies `p`. */
  function FirstRow(p: RowData -> bool, rows: seq<Row>, from: nat): (r: Option<nat>)
    requires from <= |rows|
    ensures r.None? ==> forall k :: from <= k < |rows| ==> !p(rows[k].data)
    ensures r.Some? ==> from <= r.value < |rows| && p(rows[r.value].data)
    ensures r.Some? ==> forall k :: from <= k < r.value ==> !p(rows[k].data)
    decreases |rows| - from
  {
    if from == |rows| then None
    else if p(rows[from].data) then Some(from)
    else FirstRow(p, rows, from + 1)
  }

  function FindRow(rows: seq<Row>, index: int): Option<nat> { FirstRow((d: RowData) => d.index == index, rows, 0) }

  function Replace(rows: seq<Row>, i: nat, d: RowData): seq<Row>
    requires i < |rows|
  {
    rows[i := With(rows[i], d)]
  }

  function CancelRow(d: RowData, reason: string, now: Time): RowData
  {
    if Open(d.status) && d.taskId == ""
    then d.(status := RowCanceled, error := Clip(if reason == "" then DEFAULT_CANCEL_REASON else reason, ERROR_LIMIT),
            finishedAt := Some(now))
    else d
  }

  predicate SomeRow(p: RowData -> bool, rows: seq<Row>)
  {
    exists i :: 0 <= i < |rows| && p(rows[i].data)
  }

  predicate AllRows(p: RowData -> bool, rows: seq<Row>)
  {
    forall i :: 0 <= i < |rows| ==> p(rows[i].data)
  }

  function CanceledJob(j: Job, reason: string, now: Time): Job
  {
    var rows := MapRows((d: RowData) => CancelRow(d, reason, now), j.rows);
    j.(rows := rows,
       head := j.head.(canceledAt := Some(now),
                       status := if SomeRow((d: RowData) => d.status == Running, rows) then Canceling else JobCanceled))
  }

  /** A creating row without a task whose claim is unreadable or not after the cutoff goes back to the queue. */
  predicate Stale(d: RowData, cutoff: Time)
  {
    d.status == Creating && d.taskId == "" && (d.claimedAt.None? || d.claimedAt.value <= cutoff)
  }

  function RecoverRow(d: RowData, cutoff: Time): RowData
  {
    if Stale(d, cutoff) then d.(status := RowQueued, claimedAt := None, error := "") else d
  }

  predicate Due(d: RowData, now: Time)
  {
    d.status == RowQueued && (d.nextAttemptAt.None? || d.nextAttemptAt.value <= now)
  }

  predicate LacksAssets(d: RowData) { d.imageCount > 0 && !(d.assetsReady || d.imageFiles != []) }

  datatype Pick = NothingDue | AskAssets(at: nat) | Create(at: nat)

  function PickRow(rows: seq<Row>, now: Time): (p: Pick)
    ensures !p.NothingDue? ==> p.at < |rows| && rows[p.at].data.status == RowQueued
  {
    match FirstRow((d: RowData) => Due(d, now) && !LacksAssets(d), rows, 0)
    case Some(i) => Create(i)
    case None =>
      match FirstRow((d: RowData) => Due(d, now) && LacksAssets(d), rows, 0)
      case Some(i) => AskAssets(i)
      case None => NothingDue
  }

  predicate Claimable(h: JobHead) { (h.status == JobQueued || h.status == JobRunning) && h.canceledAt.None? }

  /** What a claim picks: nothing at all when the job is canceled or not active. */
  function ClaimPick(j: Job, now: Time): (p: Pick)
    ensures !p.NothingDue? ==> p.at < |j.rows| && j.rows[p.at].data.status == RowQueued
  {
    if Claimable(j.head) then PickRow(j.rows, now) else NothingDue
  }

  function AskedForAssets(d: RowData, now: Time): RowData
  {
    d.(status := AwaitingAssets, assetRequestedAt := Some(now), claimedAt := None, error := "")
  }

  function BeingCreated(d: RowData, now: Time): RowData
  {
    d.(status := Creating, claimedAt := Some(now), nextAttemptAt := None, error := "")
  }

  function ClaimedJob(j: Job, now: Time): Job
  {
    match ClaimPick(j, now)
    case NothingDue => j
    case AskAssets(i) =>
      j.(rows := Replace(j.rows, i, AskedForAssets(j.rows[i].data, now)), head := j.head.(status := JobRunning))
    case Create(i) =>
      j.(rows := Replace(j.rows, i, BeingCreated(j.rows[i].data, now)), head := j.head.(status := JobRunning))
  }

  /** A file name as it is stored. */
  function TrimmedName(name: string): string { Clip(Strip(name), NAME_LIMIT) }

  function NamesAsStored(names: seq<string>): (r: seq<string>)
    ensures |r| == |names|
  {
    seq(|names|, i requires 0 <= i < |names| => TrimmedName(names[i]))
  }

  function WithAssets(d: RowData, files: seq<string>, names: seq<string>, now: Time): RowData
  {
    d.(status := RowQueued, imageFiles := files, imageNames := NamesAsStored(names), assetsReady := true,
       assetRequestedAt := None, assetsUploadedAt := Some(now), error := "")
  }

  function MarkError(j: Job, owner: string, index: int, files: seq<string>, names: seq<string>): Option<BatchError>
  {
    var at := FindRow(j.rows, index);
    if j.head.owner != owner then Some(PermissionDenied)
    else if j.head.canceledAt.Some? then Some(JobIsCanceled)
    else if at.None? || j.rows[at.value].data.taskId != "" then Some(NoSuchRow)
    else
      var expected := j.rows[at.value].data.imageCount;
      if expected == 0 || |files| != expected || |names| != expected then Some(ImageCountMismatch) else None
  }

  function BeingRun(d: RowData, taskId: string, now: Time): RowData
  {
    d.(status := Running, taskId := taskId, createdAt := Some(now), claimedAt := None, error := "")
  }

  function Pow2(n: nat): nat { if n == 0 then 1 else 2 * Pow2(n - 1) }

  function FailedOnce(d: RowData, error: string, retry: bool, canceled: bool, now: Time): RowData
  {
    var attempts := d.createAttempts + 1;
    if retry && attempts < MAX_CREATE_ATTEMPTS && !canceled
    then d.(createAttempts := attempts, status := RowQueued, taskId := "", claimedAt := None,
            nextAttemptAt := Some(now + Min(30, Pow2(attempts))), error := Clip(error, ERROR_LIMIT))
    else d.(createAttempts := attempts, status := RowFailed, taskId := "", claimedAt := None,
            error := Clip(error, ERROR_LIMIT), finishedAt := Some(now))
  }

  function ReconciledRow(d: RowData, tasks: map<string, Task>, now: Time): RowData
  {
    if d.taskId == "" || Terminal(d.status) || d.taskId !in tasks then d
    else
      var task := tasks[d.taskId];
      if task.videoUrl != "" then
        d.(status := RowCompleted, videoUrl := task.videoUrl, error := "", finishedAt := Some(now))
      else if task.status == "failed" || task.status == "canceled" then
        d.(status := if task.status == "failed" then RowFailed else RowCanceled,
           error := Clip(if task.error != "" then task.error
                         else if task.status == "canceled" then "用户取消生成" else "生成失败", ERROR_LIMIT),
           finishedAt := Some(now))
      else d.(status := Running)
  }

  /** `_finish_job_if_terminal`: the job status is recomputed from the rows. */
  function Finished(j: Job, now: Time): Job
  {
    if j.rows != [] && AllRows((d: RowData) => Terminal(d.status), j.rows) then
      j.(head := j.head.(
         status := if j.head.canceledAt.Some? && AllRows((d: RowData) => d.status == RowCanceled, j.rows)
                   then JobCanceled else JobCompleted,
         finishedAt := Some(now)))
    else if SomeRow((d: RowData) => d.status == Creating || d.status == Running, j.rows) then
      j.(head := j.head.(status := JobRunning))
    else j.(head := j.head.(status := JobQueued))
  }

  function RecoveredJob(j: Job, cutoff: Time): Job
  {
    j.(rows := MapRows((d: RowData) => RecoverRow(d, cutoff), j.rows))
  }

  function MarkedJob(j: Job, i: nat, files: seq<string>, names: seq<string>, now: Time): Job
    requires i < |j.rows|
  {
    j.(rows := Replace(j.rows, i, WithAssets(j.rows[i].data, files, names, now)), head := j.head.(status := JobRunning))
  }

  function CreatedJob(j: Job, i: nat, taskId: string, now: Time): Job
    requires i < |j.rows|
  {
    j.(rows := Replace(j.rows, i, BeingRun(j.rows[i].data, taskId, now)),
       head := j.head.(status := if j.head.canceledAt.Some? then Canceling else JobRunning))
  }

  function FailedJob(j: Job, i: nat, error: string, retry: bool, now: Time): Job
    requires i < |j.rows|
  {
    if Terminal(j.rows[i].data.status) then j
    else
      var d := FailedOnce(j.rows[i].data, error, retry, j.head.canceledAt.Some?, now);
      Finished(j.(rows := Replace(j.rows, i, d)), now)
  }

  function ReconciledJob(j: Job, tasks: map<string, Task>, now: Time): Job
  {
    Finished(j.(rows := MapRows((d: RowData) => ReconciledRow(d, tasks, now), j.rows)), now)
  }

  /** The mutator alone, before revisions are assigned. A failure stores nothing. */
  function Mutate(j: Job, e: Event, now: Time): (r: Result<Job, BatchError>)
    ensures r.Success? ==> |r.value.rows| == |j.rows|
  {
    match e
    case Cancel(owner, reason) =>
      if j.head.owner != owner then Failure(PermissionDenied) else Success(CanceledJob(j, reason, now))
    case RecoverStale(cutoff) => Success(RecoveredJob(j, cutoff))
    case Claim => Success(ClaimedJob(j, now))
    case MarkAssetsReady(owner, index, files, names) =>
      (match MarkError(j, owner, index, files, names)
       case Some(error) => Failure(error)
       case None => Success(MarkedJob(j, FindRow(j.rows, index).value, files, names, now)))
    case FinishCreation(index, taskId) =>
      (match FindRow(j.rows, index)
       case None => Failure(NoSuchRow)
       case Some(i) => Success(CreatedJob(j, i, taskId, now)))
    case FailOrRequeue(index, error, retry) =>
      (match FindRow(j.rows, index)
       case None => Success(j)
       case Some(i) => Success(FailedJob(j, i, error, retry, now)))
    case Reconcile(tasks) => Success(ReconciledJob(j, tasks, now))
  }

  predicate Changed(before: Job, after: Job)
    requires |before.rows| == |after.rows|
  {
    after.head != before.head || exists i :: 0 <= i < |after.rows| && after.rows[i].data != before.rows[i].data
  }

  /** `_mutate_job`: a change gives the job and exactly the changed rows the next revision. */
  function Stamp(before: Job, after: Job, now: Time): (r: Job)
    requires |before.rows| == |after.rows|
    ensures |r.rows| == |after.rows|
  {
    if !Changed(before, after) then after
    else
      after.(revision := before.revision + 1, updatedAt := now,
             rows := seq(|after.rows|, i requires 0 <= i < |after.rows| =>
               if after.rows[i].data != before.rows[i].data
               then after.rows[i].(revision := before.revision + 1, updatedAt := now)
               else after.rows[i]))
  }

  function Step(j: Job, e: Event, now: Time): (r: Job)
    ensures |r.rows| == |j.rows|
  {
    match Mutate(j, e, now)
    case Failure(_) => j
    case Success(after) => Stamp(j, after, now)
  }

  datatype TimedEvent = TimedEvent(event: Event, now: Time)

  function Run(j: Job, es: seq<TimedEvent>): (r: Job)
    ensures |r.rows| == |j.rows|
    decreases |es|
  {
    if es == [] then j else Run(Step(j, es[0].event, es[0].now), es[1..])
  }

  // ---- the public view -------------------------------------------------------------------

  datatype RowView = RowView(
    index: int, prompt: string, status: RowStatus, taskId: string, error: string, videoUrl: string,
    imageCount: nat, assetsRequired: bool, assetsReady: bool, revision: nat)

  function ViewRow(row: Row): RowView
  {
    var d := row.data;
    var stored := d.assetsReady || d.imageFiles != [];
    RowView(d.index, d.prompt, d.status, d.taskId, d.error, d.videoUrl, d.imageCount,
            d.status == AwaitingAssets && !stored, stored || d.imageCount == 0, row.revision)
  }

  function FullRows(rows: seq<Row>): seq<RowView>
  {
    seq(|rows|, i requires 0 <= i < |rows| => ViewRow(rows[i]))
  }

  function RowsAfter(rows: seq<Row>, since: nat): seq<RowView>
  {
    if rows == [] then []
    else if rows[0].revision > since then [ViewRow(rows[0])] + RowsAfter(rows[1..], since)
    else RowsAfter(rows[1..], since)
  }

  datatype JobView = JobView(status: JobStatus, revision: nat, delta: bool, rows: seq<RowView>)

  /** `public_job`: no revision, or one from the future, yields the full view. */
  function PublicJob(j: Job, since: Option<nat>): JobView
  {
    if since.None? || since.value > j.revision
    then JobView(j.head.status, j.revision, false, FullRows(j.rows))
    else JobView(j.head.status, j.revision, true, RowsAfter(j.rows, since.value))
  }

  function FindView(rows: seq<RowView>, index: int): Option<RowView>
  {
    if rows == [] then None else if rows[0].index == index then Some(rows[0]) else FindView(rows[1..], index)
  }

  /** What a client does with an answer: a delta overlays its rows by index, a full view replaces them. */
  function Overlay(held: seq<RowView>, answer: JobView): seq<RowView>
  {
    if !answer.delta then answer.rows
    else seq(|held|, i requires 0 <= i < |held| =>
           match FindView(answer.rows, held[i].index) case Some(v) => v case None => held[i])
  }
}
