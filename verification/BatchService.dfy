/** The stored job as the service updates it in place, each call tied to one `Step` of the model. */
module BatchService {
  import opened Util
  import opened BatchModel
  import opened BatchRuns

  /** Number of rows among the first `n` that a recovery sends back to the queue. */
  function StaleCount(rows: seq<Row>, cutoff: Time, n: nat): nat
    requires n <= |rows|
  {
    if n == 0 then 0 else StaleCount(rows, cutoff, n - 1) + (if Stale(rows[n - 1].data, cutoff) then 1 else 0)
  }

  // ---- new jobs ------------------------------------------------------------------------------------

  /** One row of a request, as the caller sends it. */
  datatype RowRequest = RowRequest(prompt: string, files: seq<string>, names: seq<string>, imageCount: int)

  const PROMPT_LIMIT: nat := 4000

  function TrimmedNames(names: seq<string>): seq<string>
  {
    if names == [] then []
    else (if Strip(names[0]) == "" then [] else [TrimmedName(names[0])]) + TrimmedNames(names[1..])
  }

  function NotEmpty(): string -> bool { (s: string) => s != "" }

  function QueuedRow(index: int, q: RowRequest, now: Time): Row
  {
    var count := Max(0, q.imageCount);
    Row(RowData(index, Clip(Strip(q.prompt), PROMPT_LIMIT), count, Filter(NotEmpty(), q.files), TrimmedNames(q.names),
                q.files != [] || count == 0, RowQueued, "", "", "", 0, None, None, None, None, None, None), 1, now)
  }

  /** A retry that already has a task. */
  function RetriedRow(index: int, taskId: string, q: RowRequest, now: Time): Row
  {
    Row(RowData(index, Clip(Strip(q.prompt), PROMPT_LIMIT), Max(0, q.imageCount), [], TrimmedNames(q.names),
                false, Running, taskId, "", "", 0, None, None, Some(now), None, None, None), 1, now)
  }

  /** Retries without a task are skipped, and their number with them. */
  function RetriedRows(retries: seq<(string, RowRequest)>, n: nat, now: Time): seq<Row>
    requires n <= |retries|
  {
    if n == 0 then []
    else
      RetriedRows(retries, n - 1, now)
      + (if retries[n - 1].0 == "" then [] else [RetriedRow(n, retries[n - 1].0, retries[n - 1].1, now)])
  }

  /** A retry batch starts sound, and is empty exactly when no retry has a task. */
  lemma {:induction false} RetriedRowsAreSound(retries: seq<(string, RowRequest)>, n: nat, now: Time)
    requires n <= |retries|
    ensures var rows := RetriedRows(retries, n, now);
      && UniqueIndices(rows)
      && (forall k :: 0 <= k < |rows| ==> rows[k].data.index <= n && rows[k].revision == 1)
      && (forall k :: 0 <= k < |rows| ==> RowInv(rows[k].data) && rows[k].data.status == Running)
      && (rows == [] <==> forall k :: 0 <= k < n ==> retries[k].0 == "")
  {
    if n > 0 { RetriedRowsAreSound(retries, n - 1, now); }
  }

  datatype ClaimedRow = ClaimedRow(row: RowData, awaitingAssets: bool)

  class StoredJob {
    const owner: string
    var status: JobStatus
    var canceledAt: Option<Time>
    var finishedAt: Option<Time>
    var rows: seq<Row>
    var revision: nat
    var updatedAt: Time

    function State(): Job
      reads this
    {
      Job(JobHead(owner, status, canceledAt, finishedAt), rows, revision, updatedAt)
    }

    ghost predicate Valid()
      reads this
    {
      UniqueIndices(rows)
    }

    /** A new batch: every row queued, nothing created yet. */
    constructor Create(owner: string, requests: seq<RowRequest>, now: Time)
      ensures Valid() && State().head == JobHead(owner, JobQueued, None, None) && |rows| == |requests|
      ensures forall i :: 0 <= i < |rows| ==> rows[i] == QueuedRow(i + 1, requests[i], now)
      ensures requests != [] ==> Inv(State())
    {
      this.owner := owner;
      status, canceledAt, finishedAt, revision, updatedAt := JobQueued, None, None, 1, now;
      var made: seq<Row> := [];
      for i := 0 to |requests|
        invariant |made| == i
        invariant forall k :: 0 <= k < i ==> made[k] == QueuedRow(k + 1, requests[k], now)
      {
        made := made + [QueuedRow(i + 1, requests[i], now)];
      }
      rows := made;
      if made != [] { OpenRowIsNotTerminal(made, 0); }
    }

    constructor FromRows(owner: string, status: JobStatus, rows: seq<Row>, now: Time)
      ensures State() == Job(JobHead(owner, status, None, None), rows, 1, now)
    {
      this.owner, this.status, this.rows := owner, status, rows;
      canceledAt, finishedAt, revision, updatedAt := None, None, 1, now;
    }

    /** A batch of retries that already have tasks: every row running. It is refused when no retry has one. */
    static method CreateRetry(owner: string, retries: seq<(string, RowRequest)>, now: Time)
      returns (job: Option<StoredJob>)
      ensures job.None? <==> forall i :: 0 <= i < |retries| ==> retries[i].0 == ""
      ensures job.Some? ==>
        && fresh(job.value) && job.value.Valid() && Inv(job.value.State())
        && job.value.State() ==
          Job(JobHead(owner, JobRunning, None, None), RetriedRows(retries, |retries|, now), 1, now)
    {
      var made: seq<Row> := [];
      for i := 0 to |retries|
        invariant made == RetriedRows(retries, i, now)
      {
        if retries[i].0 != "" { made := made + [RetriedRow(i + 1, retries[i].0, retries[i].1, now)]; }
      }
      RetriedRowsAreSound(retries, |retries|, now);
      if made == [] { return None; }
      OpenRowIsNotTerminal(made, 0);
      var stored := new StoredJob.FromRows(owner, JobRunning, made, now);
      return Some(stored);
    }

    /** `_mutate_job` after the mutator: compares rows by index and assigns the next revision. */
    method StampRevisions(before: Job, now: Time)
      requires Valid() && |before.rows| == |rows| && before.revision == revision && before.head.owner == owner
      requires forall i :: 0 <= i < |rows| ==>
        rows[i].data.index == before.rows[i].data.index && rows[i].revision == before.rows[i].revision
      modifies this
      ensures Valid() && State() == Stamp(before, old(State()), now)
    {
      var beforeRows: map<int, RowData> := map[];
      for i := 0 to |before.rows|
        invariant forall k :: 0 <= k < i ==>
          before.rows[k].data.index in beforeRows && beforeRows[before.rows[k].data.index] == before.rows[k].data
      {
        assert forall k :: 0 <= k < i ==> rows[k].data.index != rows[i].data.index;
        beforeRows := beforeRows[before.rows[i].data.index := before.rows[i].data];
      }
      var changed: seq<nat> := [];
      for i := 0 to |rows|
        invariant forall k :: 0 <= k < i ==> (k in changed <==> rows[k].data != before.rows[k].data)
        invariant forall k :: k in changed ==> k < i
      {
        if beforeRows[rows[i].data.index] != rows[i].data {
          changed := changed + [i];
        }
      }
      ghost var raw := State();
      assert changed != [] <==> exists i :: 0 <= i < |rows| && rows[i].data != before.rows[i].data by {
        if changed != [] { assert changed[0] in changed; }
      }
      if changed != [] || JobHead(owner, status, canceledAt, finishedAt) != before.head {
        revision := before.revision + 1;
        updatedAt := now;
        for c := 0 to |changed|
          invariant |rows| == |raw.rows|
          invariant forall k :: 0 <= k < |rows| ==>
            rows[k] == if k in changed[..c] then raw.rows[k].(revision := revision, updatedAt := now) else raw.rows[k]
          invariant State() == raw.(rows := rows, revision := revision, updatedAt := updatedAt)
          invariant revision == before.revision + 1 && updatedAt == now
        {
          var at := changed[c];
          assert at in changed;
          assert changed[..c + 1] == changed[..c] + [at];
          rows := rows[at := rows[at].(revision := revision, updatedAt := now)];
        }
        assert changed[..|changed|] == changed;
        assert rows == Stamp(before, raw, now).rows;
      }
    }

    method FindByIndex(index: int) returns (at: Option<nat>)
      ensures at == FindRow(rows, index)
    {
      for i := 0 to |rows|
        invariant forall k :: 0 <= k < i ==> rows[k].data.index != index
      {
        if rows[i].data.index == index { return Some(i); }
      }
      return None;
    }

    /** `_finish_job_if_terminal`. */
    method FinishIfTerminal(now: Time)
      modifies this
      ensures State() == Finished(old(State()), now)
    {
      var allTerminal, allCanceled, anyBusy := true, true, false;
      for i := 0 to |rows|
        invariant unchanged(this)
        invariant allTerminal <==> forall k :: 0 <= k < i ==> Terminal(rows[k].data.status)
        invariant allCanceled <==> forall k :: 0 <= k < i ==> rows[k].data.status == RowCanceled
        invariant anyBusy <==>
          exists k :: 0 <= k < i && (rows[k].data.status == Creating || rows[k].data.status == Running)
      {
        var s := rows[i].data.status;
        allTerminal := allTerminal && Terminal(s);
        allCanceled := allCanceled && s == RowCanceled;
        anyBusy := anyBusy || s == Creating || s == Running;
      }
      if rows != [] && allTerminal {
        status := if canceledAt.Some? && allCanceled then JobCanceled else JobCompleted;
        finishedAt := Some(now);
      } else if anyBusy {
        status := JobRunning;
      } else {
        status := JobQueued;
      }
    }

    method CancelJob(owner: string, reason: string, now: Time) returns (error: Option<BatchError>)
      requires Valid()
      modifies this
      ensures Valid() && State() == Step(old(State()), Cancel(owner, reason), now)
      ensures error == if this.owner != owner then Some(PermissionDenied) else None
    {
      if this.owner != owner { return Some(PermissionDenied); }
      var before := State();
      canceledAt := Some(now);
      for i := 0 to |rows|
        invariant |rows| == |before.rows|
        invariant forall k :: 0 <= k < |rows| ==>
          rows[k] == if k < i then With(before.rows[k], CancelRow(before.rows[k].data, reason, now)) else before.rows[k]
        invariant State() == before.(rows := rows, head := before.head.(canceledAt := Some(now)))
      {
        var d := rows[i].data;
        if (d.status == RowQueued || d.status == AwaitingAssets || d.status == Creating) && d.taskId == "" {
          var text := if reason == "" then DEFAULT_CANCEL_REASON else reason;
          rows := rows[i := With(rows[i],
            d.(status := RowCanceled, error := Clip(text, ERROR_LIMIT), finishedAt := Some(now)))];
        }
      }
      assert rows == MapRows((d: RowData) => CancelRow(d, reason, now), before.rows);
      var running := false;
      for i := 0 to |rows|
        invariant State() == before.(rows := rows, head := before.head.(canceledAt := Some(now)))
        invariant rows == MapRows((d: RowData) => CancelRow(d, reason, now), before.rows)
        invariant running <==> exists k :: 0 <= k < i && rows[k].data.status == Running
      {
        running := running || rows[i].data.status == Running;
      }
      status := if running then Canceling else JobCanceled;
      assert State() == CanceledJob(before, reason, now);
      MutateKeepsShape(before, Cancel(owner, reason), now);
      StampRevisions(before, now);
      return None;
    }

    method RecoverStaleRows(cutoff: Time, now: Time) returns (recovered: nat)
      requires Valid()
      modifies this
      ensures Valid() && State() == Step(old(State()), RecoverStale(cutoff), now)
      ensures recovered == StaleCount(old(rows), cutoff, |old(rows)|)
    {
      var before := State();
      recovered := 0;
      for i := 0 to |rows|
        invariant |rows| == |before.rows|
        invariant forall k :: 0 <= k < |rows| ==>
          rows[k] == if k < i then With(before.rows[k], RecoverRow(before.rows[k].data, cutoff)) else before.rows[k]
        invariant State() == before.(rows := rows)
        invariant recovered == StaleCount(before.rows, cutoff, i)
      {
        var d := rows[i].data;
        if d.status == Creating && d.taskId == "" {
          if d.claimedAt.None? || d.claimedAt.value <= cutoff {
            rows := rows[i := With(rows[i], d.(status := RowQueued, claimedAt := None, error := ""))];
            recovered := recovered + 1;
          }
        }
      }
      assert rows == MapRows((d: RowData) => RecoverRow(d, cutoff), before.rows);
      MutateKeepsShape(before, RecoverStale(cutoff), now);
      StampRevisions(before, now);
    }

    /** Scans for the first due row that has its images, noting the first that lacks them. */
    method ScanRows(now: Time) returns (p: Pick)
      ensures p == PickRow(rows, now)
    {
      var awaiting: Option<nat> := None;
      for i := 0 to |rows|
        invariant forall k :: 0 <= k < i ==> !(Due(rows[k].data, now) && !LacksAssets(rows[k].data))
        invariant awaiting.None? ==> forall k :: 0 <= k < i ==> !(Due(rows[k].data, now) && LacksAssets(rows[k].data))
        invariant awaiting.Some? ==>
          awaiting.value < i && Due(rows[awaiting.value].data, now) && LacksAssets(rows[awaiting.value].data)
        invariant awaiting.Some? ==> forall k :: 0 <= k < awaiting.value ==>
          !(Due(rows[k].data, now) && LacksAssets(rows[k].data))
      {
        var d := rows[i].data;
        if d.status == RowQueued && (d.nextAttemptAt.None? || d.nextAttemptAt.value <= now) {
          if d.imageCount > 0 && !(d.assetsReady || d.imageFiles != []) {
            if awaiting.None? { awaiting := Some(i); }
          } else {
            return Pick.Create(i);
          }
        }
      }
      p := if awaiting.Some? then AskAssets(awaiting.value) else NothingDue;
    }

    /** Claims the picked row; a row that still lacks its images is only asked for them. */
    method ClaimNextRow(now: Time) returns (claimed: Option<ClaimedRow>)
      requires Valid()
      modifies this
      ensures Valid() && State() == Step(old(State()), Claim, now)
      ensures claimed == match ClaimPick(old(State()), now)
        case NothingDue => None
        case AskAssets(i) => Some(ClaimedRow(AskedForAssets(old(rows)[i].data, now), true))
        case Create(i) => Some(ClaimedRow(BeingCreated(old(rows)[i].data, now), false))
    {
      var before := State();
      if (status != JobQueued && status != JobRunning) || canceledAt.Some? { return None; }
      var pick := ScanRows(now);
      match pick {
        case NothingDue => return None;
        case Create(i) =>
          rows := Replace(rows, i, BeingCreated(rows[i].data, now));
          claimed := Some(ClaimedRow(rows[i].data, false));
        case AskAssets(i) =>
          rows := Replace(rows, i, AskedForAssets(rows[i].data, now));
          claimed := Some(ClaimedRow(rows[i].data, true));
      }
      status := JobRunning;
      assert State() == ClaimedJob(before, now);
      MutateKeepsShape(before, Claim, now);
      StampRevisions(before, now);
    }

    method MarkRowAssetsReady(owner: string, index: int, files: seq<string>, names: seq<string>, now: Time)
      returns (r: Result<RowData, BatchError>)
      requires Valid()
      modifies this
      ensures Valid() && State() == Step(old(State()), MarkAssetsReady(owner, index, files, names), now)
      ensures r == match MarkError(old(State()), owner, index, files, names)
        case Some(error) => Failure(error)
        case None => Success(WithAssets(old(rows)[FindRow(old(rows), index).value].data, files, names, now))
    {
      var before := State();
      if this.owner != owner { return Failure(PermissionDenied); }
      if canceledAt.Some? { return Failure(JobIsCanceled); }
      var at := FindByIndex(index);
      if at.None? || rows[at.value].data.taskId != "" { return Failure(NoSuchRow); }
      var expected := rows[at.value].data.imageCount;
      if expected <= 0 || |files| != expected || |names| != expected { return Failure(ImageCountMismatch); }
      rows := Replace(rows, at.value, WithAssets(rows[at.value].data, files, names, now));
      status := JobRunning;
      r := Success(rows[at.value].data);
      MutateKeepsShape(before, MarkAssetsReady(owner, index, files, names), now);
      StampRevisions(before, now);
    }

    method FinishRowCreation(index: int, taskId: string, now: Time) returns (error: Option<BatchError>)
      requires Valid()
      modifies this
      ensures Valid() && State() == Step(old(State()), FinishCreation(index, taskId), now)
      ensures error == if FindRow(old(rows), index).None? then Some(NoSuchRow) else None
    {
      var before := State();
      var at := FindByIndex(index);
      if at.None? { return Some(NoSuchRow); }
      rows := Replace(rows, at.value, BeingRun(rows[at.value].data, taskId, now));
      status := if canceledAt.Some? then Canceling else JobRunning;
      MutateKeepsShape(before, FinishCreation(index, taskId), now);
      StampRevisions(before, now);
      return None;
    }

    method FailOrRequeueRow(index: int, error: string, retry: bool, now: Time)
      requires Valid()
      modifies this
      ensures Valid() && State() == Step(old(State()), FailOrRequeue(index, error, retry), now)
    {
      var before := State();
      var at := FindByIndex(index);
      MutateKeepsShape(before, FailOrRequeue(index, error, retry), now);
      if at.None? || Terminal(rows[at.value].data.status) { return; }
      rows := Replace(rows, at.value, FailedOnce(rows[at.value].data, error, retry, canceledAt.Some?, now));
      FinishIfTerminal(now);
      StampRevisions(before, now);
    }

    method ReconcileJob(tasks: map<string, Task>, now: Time)
      requires Valid()
      modifies this
      ensures Valid() && State() == Step(old(State()), Reconcile(tasks), now)
    {
      var before := State();
      for i := 0 to |rows|
        invariant |rows| == |before.rows|
        invariant forall k :: 0 <= k < |rows| ==>
          rows[k] == if k < i then With(before.rows[k], ReconciledRow(before.rows[k].data, tasks, now))
            else before.rows[k]
        invariant State() == before.(rows := rows)
      {
        var taskId := rows[i].data.taskId;
        if taskId != "" && !Terminal(rows[i].data.status) && taskId in tasks {
          rows := rows[i := With(rows[i], ReconciledRow(rows[i].data, tasks, now))];
        }
      }
      assert rows == MapRows((d: RowData) => ReconciledRow(d, tasks, now), before.rows);
      FinishIfTerminal(now);
      MutateKeepsShape(before, Reconcile(tasks), now);
      StampRevisions(before, now);
    }
  }

  // ---- retention -----------------------------------------------------------------------------

  type JobId = nat

  /** The order in which old jobs are deleted: by age, then by id. */
  predicate Older(jobs: map<JobId, Job>, a: JobId, b: JobId)
  {
    a in jobs && b in jobs
    && (jobs[a].updatedAt < jobs[b].updatedAt || (jobs[a].updatedAt == jobs[b].updatedAt && a <= b))
  }

  predicate Expired(j: Job, cutoff: Time) { JobTerminal(j.head.status) && j.updatedAt < cutoff }

  class JobStore {
    var jobs: map<JobId, Job>

    /** Deletes the oldest expired jobs, never more than `limit`, and never one with a live row. */
    method CleanupHistory(cutoff: Time, limit: nat) returns (removed: seq<JobId>)
      modifies this
      ensures Distinct(removed) && |removed| <= limit
      ensures forall id :: id in removed ==>
        id in old(jobs) && old(jobs)[id].updatedAt < cutoff && old(jobs)[id].head.status in {JobCompleted, JobCanceled}
      ensures jobs == old(jobs) - (set id | id in removed)
      ensures forall id, kept :: id in removed && kept in jobs && Expired(jobs[kept], cutoff) ==>
        Older(old(jobs), id, kept)
      ensures |removed| < limit ==> forall kept :: kept in jobs ==> !Expired(jobs[kept], cutoff)
      ensures forall id :: id in old(jobs) && Inv(old(jobs)[id]) && !AllTerminal(old(jobs)[id].rows) ==>
        id in jobs && jobs[id] == old(jobs)[id]
    {
      var all := jobs;
      var rest, candidates: seq<JobId> := all.Keys, [];
      while rest != {}
        invariant rest <= all.Keys && Distinct(candidates)
        invariant forall id :: id in candidates <==> id in all.Keys - rest && Expired(all[id], cutoff)
        decreases rest
      {
        var id :| id in rest;
        if JobTerminal(all[id].head.status) && all[id].updatedAt < cutoff {
          candidates := candidates + [id];
        }
        rest := rest - {id};
      }
      var le := (a: JobId, b: JobId) => AgeBefore(all, a, b);
      AgeOrderIsTotal(all);
      SortOrders(le, candidates);
      SortKeepsElements(le, candidates);
      var sorted := Sort(le, candidates);
      SortedIsDistinct(candidates, sorted);
      removed := if |sorted| <= limit then sorted else sorted[..limit];
      var doomed := set id | id in removed;
      jobs := jobs - doomed;
      forall id | id in removed ensures id in candidates {
        SortHasSameMembers(le, candidates, id);
      }
      forall id, kept | id in removed && kept in jobs && Expired(jobs[kept], cutoff) ensures Older(all, id, kept) {
        SortHasSameMembers(le, candidates, kept);
        var i :| 0 <= i < |removed| && removed[i] == id;
        var k :| 0 <= k < |sorted| && sorted[k] == kept;
        assert kept !in doomed && kept !in removed;
        assert le(sorted[i], sorted[k]);
      }
      if |removed| < limit {
        forall kept | kept in jobs ensures !Expired(jobs[kept], cutoff) {
          SortHasSameMembers(le, candidates, kept);
        }
      }
    }
  }

  /** `Older`, extended to all ids so that it can order a sort. */
  predicate AgeBefore(jobs: map<JobId, Job>, a: JobId, b: JobId)
  {
    if a in jobs && b in jobs then Older(jobs, a, b) else a !in jobs
  }

  lemma AgeOrderIsTotal(jobs: map<JobId, Job>)
    ensures TotalPreorder((a: JobId, b: JobId) => AgeBefore(jobs, a, b))
  {
  }

  lemma SortedIsDistinct(a: seq<JobId>, b: seq<JobId>)
    requires Distinct(a) && multiset(a) == multiset(b)
    ensures Distinct(b)
  {
    forall i, j | 0 <= i < j < |b| ensures b[i] != b[j] {
      if b[i] == b[j] {
        assert b == b[..i] + [b[i]] + b[i + 1..j] + [b[j]] + b[j + 1..];
        assert multiset(b)[b[i]] >= 2;
        OnceInDistinct(a, b[i]);
      }
    }
  }

  lemma {:induction false} OnceInDistinct(a: seq<JobId>, x: JobId)
    requires Distinct(a)
    ensures multiset(a)[x] <= 1
  {
    if a != [] {
      OnceInDistinct(a[1..], x);
      assert a == [a[0]] + a[1..];
      if a[0] == x { assert x !in a[1..]; }
    }
  }
}
