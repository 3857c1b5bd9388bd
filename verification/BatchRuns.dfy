/** What every run of the batch service keeps, whatever the interleaving of its callers. */
module BatchRuns {
  import opened Util
  import opened BatchModel

  ghost predicate UniqueIndices(rows: seq<Row>)
  {
    forall i, k :: 0 <= i < k < |rows| ==> rows[i].data.index != rows[k].data.index
  }

  ghost predicate RowInv(d: RowData)
  {
    && (d.taskId != "" ==> d.status == Running || Terminal(d.status))
    && (d.status == Running || d.status == RowCompleted ==> d.taskId != "")
    && (d.status == RowCompleted ==> d.videoUrl != "")
  }

  ghost predicate AllTerminal(rows: seq<Row>)
  {
    forall i :: 0 <= i < |rows| ==> Terminal(rows[i].data.status)
  }

  ghost predicate NoOpenRow(rows: seq<Row>)
  {
    forall i :: 0 <= i < |rows| ==> !Open(rows[i].data.status)
  }

  /** The part of the invariant that does not mention revisions. */
  ghost predicate CoreInv(j: Job)
  {
    && j.rows != [] && UniqueIndices(j.rows)
    && (forall i :: 0 <= i < |j.rows| ==> RowInv(j.rows[i].data))
    && (JobTerminal(j.head.status) <==> AllTerminal(j.rows))
    && (j.head.canceledAt.Some? ==> NoOpenRow(j.rows))
  }

  ghost predicate RevisionsBounded(j: Job)
  {
    forall i :: 0 <= i < |j.rows| ==> j.rows[i].revision <= j.revision
  }

  ghost predicate Inv(j: Job) { CoreInv(j) && RevisionsBounded(j) }

  /** The one duty of the callers: a created task has an id. */
  predicate Legal(e: Event) { e.FinishCreation? ==> e.taskId != "" }

  predicate LegalRun(es: seq<TimedEvent>) { forall k :: 0 <= k < |es| ==> Legal(es[k].event) }

  // ---- single steps ----------------------------------------------------------------------

  lemma StampKeepsPayload(before: Job, after: Job, now: Time)
    requires |before.rows| == |after.rows|
    ensures Stamp(before, after, now).head == after.head
    ensures forall i :: 0 <= i < |after.rows| ==> Stamp(before, after, now).rows[i].data == after.rows[i].data
  {
  }

  ghost predicate SameShape(j: Job, r: Job)
  {
    && |r.rows| == |j.rows| && r.revision == j.revision
    && forall i :: 0 <= i < |j.rows| ==>
         r.rows[i].data.index == j.rows[i].data.index && r.rows[i].revision == j.rows[i].revision
         && r.rows[i].updatedAt == j.rows[i].updatedAt
  }

  lemma RowMutatorsKeepShape(j: Job, i: nat, files: seq<string>, names: seq<string>, taskId: string, now: Time)
    requires i < |j.rows|
    ensures SameShape(j, MarkedJob(j, i, files, names, now)) && SameShape(j, CreatedJob(j, i, taskId, now))
  {
  }

  lemma FailureKeepsShape(j: Job, i: nat, error: string, retry: bool, now: Time)
    requires i < |j.rows|
    ensures SameShape(j, FailedJob(j, i, error, retry, now))
  {
  }

  lemma CancelKeepsShape(j: Job, reason: string, now: Time)
    ensures SameShape(j, CanceledJob(j, reason, now))
  {
  }

  lemma RecoverKeepsShape(j: Job, cutoff: Time)
    ensures SameShape(j, RecoveredJob(j, cutoff))
  {
  }

  lemma ReconcileKeepsShape(j: Job, tasks: map<string, Task>, now: Time)
    ensures SameShape(j, ReconciledJob(j, tasks, now))
  {
  }

  lemma ClaimKeepsShape(j: Job, now: Time)
    ensures SameShape(j, ClaimedJob(j, now))
  {
  }

  /** Rows are never added, dropped or reordered, and no mutator writes a revision. */
  lemma MutateKeepsShape(j: Job, e: Event, now: Time)
    requires Mutate(j, e, now).Success?
    ensures SameShape(j, Mutate(j, e, now).value)
  {
    match e
    case Cancel(_, reason) => CancelKeepsShape(j, reason, now);
    case RecoverStale(cutoff) => RecoverKeepsShape(j, cutoff);
    case Claim => ClaimKeepsShape(j, now);
    case Reconcile(tasks) => ReconcileKeepsShape(j, tasks, now);
    case MarkAssetsReady(_, index, files, names) =>
      RowMutatorsKeepShape(j, FindRow(j.rows, index).value, files, names, "", now);
    case FinishCreation(index, taskId) => RowMutatorsKeepShape(j, FindRow(j.rows, index).value, [], [], taskId, now);
    case FailOrRequeue(index, error, retry) =>
      var at := FindRow(j.rows, index);
      if at.Some? { FailureKeepsShape(j, at.value, error, retry, now); }
  }

  lemma FinishedMeetsStatus(j: Job, now: Time)
    requires j.rows != []
    ensures JobTerminal(Finished(j, now).head.status) <==> AllTerminal(j.rows)
    ensures Finished(j, now).rows == j.rows && Finished(j, now).head.canceledAt == j.head.canceledAt
  {
  }

  lemma CancelKeepsCore(j: Job, reason: string, now: Time)
    requires CoreInv(j)
    ensures CoreInv(CanceledJob(j, reason, now))
  {
    var r := CanceledJob(j, reason, now);
    forall i | 0 <= i < |r.rows| ensures RowInv(r.rows[i].data) && !Open(r.rows[i].data.status) {
      assert RowInv(j.rows[i].data);
    }
    if !SomeRow((d: RowData) => d.status == Running, r.rows) {
      forall i | 0 <= i < |r.rows| ensures Terminal(r.rows[i].data.status) {
        var p := (d: RowData) => d.status == Running;
        assert !p(r.rows[i].data);
      }
    }
  }

  lemma ReconciledRowKeepsInv(d: RowData, tasks: map<string, Task>, now: Time)
    requires RowInv(d)
    ensures var r := ReconciledRow(d, tasks, now);
      RowInv(r) && r.index == d.index && (Open(r.status) <==> Open(d.status))
  {
  }

  lemma ReconcileKeepsCore(j: Job, tasks: map<string, Task>, now: Time)
    requires CoreInv(j)
    ensures CoreInv(ReconciledJob(j, tasks, now))
  {
    var mid := j.(rows := MapRows((d: RowData) => ReconciledRow(d, tasks, now), j.rows));
    forall i | 0 <= i < |mid.rows|
      ensures RowInv(mid.rows[i].data) && (Open(mid.rows[i].data.status) ==> Open(j.rows[i].data.status))
      ensures mid.rows[i].data.index == j.rows[i].data.index
    {
      ReconciledRowKeepsInv(j.rows[i].data, tasks, now);
    }
    FinishedMeetsStatus(mid, now);
    assert mid.head.canceledAt.Some? ==> NoOpenRow(mid.rows);
    assert UniqueIndices(mid.rows);
  }

  lemma FailedRowKeepsInv(d: RowData, error: string, retry: bool, canceled: bool, now: Time)
    requires RowInv(d)
    ensures var r := FailedOnce(d, error, retry, canceled, now);
      RowInv(r) && r.index == d.index && (canceled ==> !Open(r.status))
  {
  }

  /** Replacing one row by a sound one keeps what every row has. */
  lemma ReplaceKeepsRows(j: Job, i: nat, d: RowData)
    requires CoreInv(j) && i < |j.rows| && RowInv(d) && d.index == j.rows[i].data.index
    requires j.head.canceledAt.Some? ==> !Open(d.status)
    ensures var rows := Replace(j.rows, i, d);
      && UniqueIndices(rows) && (forall k :: 0 <= k < |rows| ==> RowInv(rows[k].data))
      && (j.head.canceledAt.Some? ==> NoOpenRow(rows))
  {
  }

  lemma FailKeepsCore(j: Job, i: nat, error: string, retry: bool, now: Time)
    requires CoreInv(j) && i < |j.rows|
    ensures CoreInv(FailedJob(j, i, error, retry, now))
  {
    if !Terminal(j.rows[i].data.status) {
      var d := FailedOnce(j.rows[i].data, error, retry, j.head.canceledAt.Some?, now);
      FailedRowKeepsInv(j.rows[i].data, error, retry, j.head.canceledAt.Some?, now);
      ReplaceKeepsRows(j, i, d);
      FinishedMeetsStatus(j.(rows := Replace(j.rows, i, d)), now);
    }
  }

  lemma OpenRowIsNotTerminal(rows: seq<Row>, i: nat)
    requires i < |rows| && !Terminal(rows[i].data.status)
    ensures !AllTerminal(rows)
  {
  }

  lemma RecoverKeepsCore(j: Job, cutoff: Time)
    requires CoreInv(j)
    ensures CoreInv(RecoveredJob(j, cutoff))
  {
    var r := RecoveredJob(j, cutoff);
    forall i | 0 <= i < |r.rows|
      ensures RowInv(r.rows[i].data)
      ensures Open(r.rows[i].data.status) <==> Open(j.rows[i].data.status)
      ensures Terminal(r.rows[i].data.status) <==> Terminal(j.rows[i].data.status)
    {
      assert RowInv(j.rows[i].data);
    }
    if AllTerminal(r.rows) {
      forall i | 0 <= i < |j.rows| ensures Terminal(j.rows[i].data.status) {
        assert Terminal(r.rows[i].data.status);
      }
    }
  }

  lemma ClaimKeepsCore(j: Job, now: Time)
    requires CoreInv(j)
    ensures CoreInv(ClaimedJob(j, now))
  {
    match ClaimPick(j, now)
    case NothingDue =>
    case AskAssets(i) =>
      ReplaceKeepsRows(j, i, AskedForAssets(j.rows[i].data, now));
      OpenRowIsNotTerminal(ClaimedJob(j, now).rows, i);
    case Create(i) =>
      ReplaceKeepsRows(j, i, BeingCreated(j.rows[i].data, now));
      OpenRowIsNotTerminal(ClaimedJob(j, now).rows, i);
  }

  lemma MarkKeepsCore(j: Job, i: nat, files: seq<string>, names: seq<string>, now: Time)
    requires CoreInv(j) && i < |j.rows| && j.head.canceledAt.None? && j.rows[i].data.taskId == ""
    ensures CoreInv(MarkedJob(j, i, files, names, now))
  {
    ReplaceKeepsRows(j, i, WithAssets(j.rows[i].data, files, names, now));
    OpenRowIsNotTerminal(MarkedJob(j, i, files, names, now).rows, i);
  }

  lemma CreateKeepsCore(j: Job, i: nat, taskId: string, now: Time)
    requires CoreInv(j) && i < |j.rows| && taskId != ""
    ensures CoreInv(CreatedJob(j, i, taskId, now))
  {
    ReplaceKeepsRows(j, i, BeingRun(j.rows[i].data, taskId, now));
    OpenRowIsNotTerminal(CreatedJob(j, i, taskId, now).rows, i);
  }

  lemma MutateKeepsCore(j: Job, e: Event, now: Time)
    requires CoreInv(j) && Legal(e) && Mutate(j, e, now).Success?
    ensures CoreInv(Mutate(j, e, now).value)
  {
    match e
    case Cancel(owner, reason) => CancelKeepsCore(j, reason, now);
    case RecoverStale(cutoff) => RecoverKeepsCore(j, cutoff);
    case Reconcile(tasks) => ReconcileKeepsCore(j, tasks, now);
    case Claim => ClaimKeepsCore(j, now);
    case FailOrRequeue(index, error, retry) =>
      var at := FindRow(j.rows, index);
      if at.Some? { FailKeepsCore(j, at.value, error, retry, now); }
    case MarkAssetsReady(_, index, files, names) => MarkKeepsCore(j, FindRow(j.rows, index).value, files, names, now);
    case FinishCreation(index, taskId) => CreateKeepsCore(j, FindRow(j.rows, index).value, taskId, now);
  }

  lemma SamePayloadSameCore(j: Job, r: Job)
    requires CoreInv(j) && |r.rows| == |j.rows| && r.head == j.head
    requires forall i :: 0 <= i < |j.rows| ==> r.rows[i].data == j.rows[i].data
    ensures CoreInv(r)
  {
    if AllTerminal(r.rows) {
      forall i | 0 <= i < |j.rows| ensures Terminal(j.rows[i].data.status) { assert Terminal(r.rows[i].data.status); }
    }
  }

  lemma StepKeepsInv(j: Job, e: Event, now: Time)
    requires Inv(j) && Legal(e)
    ensures Inv(Step(j, e, now))
  {
    match Mutate(j, e, now)
    case Failure(_) =>
    case Success(after) =>
      MutateKeepsCore(j, e, now);
      MutateKeepsShape(j, e, now);
      StampKeepsPayload(j, after, now);
      SamePayloadSameCore(after, Stamp(j, after, now));
  }

  /** An empty task id is exactly what would break the row invariant. */
  lemma FinishNeedsTaskId(j: Job, index: int, taskId: string, now: Time)
    requires CoreInv(j) && FindRow(j.rows, index).Some?
    ensures CoreInv(Mutate(j, FinishCreation(index, taskId), now).value) <==> taskId != ""
  {
    var i := FindRow(j.rows, index).value;
    var r := Mutate(j, FinishCreation(index, taskId), now).value;
    if taskId != "" {
      MutateKeepsCore(j, FinishCreation(index, taskId), now);
    } else {
      assert !RowInv(r.rows[i].data);
    }
  }

  // ---- whole runs: status and cancellation ---------------------------------------------------

  /** The job status is terminal exactly when every row is, after any run. */
  lemma {:induction false} RunKeepsInv(j: Job, es: seq<TimedEvent>)
    requires Inv(j) && LegalRun(es)
    ensures Inv(Run(j, es))
    ensures JobTerminal(Run(j, es).head.status) <==> AllTerminal(Run(j, es).rows)
    decreases |es|
  {
    if es != [] {
      StepKeepsInv(j, es[0].event, es[0].now);
      RunKeepsInv(Step(j, es[0].event, es[0].now), es[1..]);
    }
  }

  lemma StepKeepsCancellation(j: Job, e: Event, now: Time)
    requires j.head.canceledAt.Some?
    ensures Step(j, e, now).head.canceledAt.Some?
  {
    match Mutate(j, e, now)
    case Failure(_) =>
    case Success(after) =>
      StampKeepsPayload(j, after, now);
      if e.FailOrRequeue? || e.Reconcile? { assert after.head.canceledAt == j.head.canceledAt; }
  }

  /** After a cancellation no row is ever queued, waiting or being created, and nothing is claimed. */
  lemma {:induction false} CanceledJobStaysClosed(j: Job, es: seq<TimedEvent>, now: Time)
    requires Inv(j) && LegalRun(es) && j.head.canceledAt.Some?
    ensures Run(j, es).head.canceledAt.Some?
    ensures NoOpenRow(Run(j, es).rows)
    ensures ClaimPick(Run(j, es), now) == NothingDue
    decreases |es|
  {
    if es != [] {
      StepKeepsInv(j, es[0].event, es[0].now);
      StepKeepsCancellation(j, es[0].event, es[0].now);
      CanceledJobStaysClosed(Step(j, es[0].event, es[0].now), es[1..], now);
    }
  }

  predicate FinalReport(tasks: map<string, Task>, taskId: string)
  {
    taskId in tasks
    && (tasks[taskId].videoUrl != "" || tasks[taskId].status == "failed" || tasks[taskId].status == "canceled")
  }

  /** One report that settles every running task closes a canceled job. */
  lemma FinalReportClosesCanceledJob(j: Job, tasks: map<string, Task>, now: Time)
    requires Inv(j) && j.head.canceledAt.Some?
    requires forall i :: 0 <= i < |j.rows| && j.rows[i].data.status == Running ==>
      FinalReport(tasks, j.rows[i].data.taskId)
    ensures JobTerminal(Step(j, Reconcile(tasks), now).head.status)
    ensures AllTerminal(Step(j, Reconcile(tasks), now).rows)
  {
    var mid := j.(rows := MapRows((d: RowData) => ReconciledRow(d, tasks, now), j.rows));
    forall i | 0 <= i < |mid.rows| ensures Terminal(mid.rows[i].data.status) {
      assert RowInv(j.rows[i].data);
    }
    FinishedMeetsStatus(mid, now);
    StampKeepsPayload(j, Finished(mid, now), now);
  }

  lemma JobMutatorsSpareTerminal(j: Job, i: nat, reason: string, cutoff: Time, tasks: map<string, Task>, now: Time)
    requires i < |j.rows| && Terminal(j.rows[i].data.status)
    ensures CanceledJob(j, reason, now).rows[i].data == j.rows[i].data
    ensures RecoveredJob(j, cutoff).rows[i].data == j.rows[i].data
    ensures ReconciledJob(j, tasks, now).rows[i].data == j.rows[i].data
    ensures ClaimedJob(j, now).rows[i].data == j.rows[i].data
  {
  }

  lemma RowMutatorsOnTerminal(j: Job, i: nat, k: nat, files: seq<string>, names: seq<string>, taskId: string, now: Time)
    requires i < |j.rows| && k < |j.rows| && Terminal(j.rows[i].data.status)
    ensures MarkedJob(j, k, files, names, now).rows[i].data == j.rows[i].data <==> k != i
    ensures CreatedJob(j, k, taskId, now).rows[i].data == j.rows[i].data <==> k != i
  {
  }

  lemma FailureSparesTerminal(j: Job, i: nat, k: nat, error: string, retry: bool, now: Time)
    requires i < |j.rows| && k < |j.rows| && Terminal(j.rows[i].data.status)
    ensures FailedJob(j, k, error, retry, now).rows[i].data == j.rows[i].data
  {
  }

  /** The search by index finds row `i` exactly for its own index. */
  lemma FindRowIs(rows: seq<Row>, i: nat, index: int)
    requires UniqueIndices(rows) && i < |rows|
    ensures FindRow(rows, index) == Some(i) <==> index == rows[i].data.index
  {
    var at := FindRow(rows, index);
    if at.Some? && at.value != i { assert rows[at.value].data.index != rows[i].data.index; }
  }

  /** Terminal rows are not final: exactly two calls can wake one up, and only on that row. */
  lemma TerminalRowSurvives(j: Job, i: nat, e: Event, now: Time)
    requires Inv(j) && Legal(e) && i < |j.rows| && Terminal(j.rows[i].data.status)
    ensures (Step(j, e, now).rows[i].data == j.rows[i].data) <==>
      !(|| (e.FinishCreation? && e.index == j.rows[i].data.index)
        || (e.MarkAssetsReady? && e.index == j.rows[i].data.index
            && MarkError(j, e.owner, e.index, e.files, e.names).None?))
  {
    StepPayload(j, e, now, i);
    match e
    case Cancel(_, reason) => JobMutatorsSpareTerminal(j, i, reason, 0, map[], now);
    case RecoverStale(cutoff) => JobMutatorsSpareTerminal(j, i, "", cutoff, map[], now);
    case Reconcile(tasks) => JobMutatorsSpareTerminal(j, i, "", 0, tasks, now);
    case Claim => JobMutatorsSpareTerminal(j, i, "", 0, map[], now);
    case FailOrRequeue(index, error, retry) =>
      var at := FindRow(j.rows, index);
      if at.Some? { FailureSparesTerminal(j, i, at.value, error, retry, now); }
    case MarkAssetsReady(_, index, files, names) =>
      FindRowIs(j.rows, i, index);
      var at := FindRow(j.rows, index);
      if at.Some? { RowMutatorsOnTerminal(j, i, at.value, files, names, "", now); }
    case FinishCreation(index, taskId) =>
      FindRowIs(j.rows, i, index);
      var at := FindRow(j.rows, index);
      if at.Some? { RowMutatorsOnTerminal(j, i, at.value, [], [], taskId, now); }
  }

  // ---- whole runs: delta synchronisation -------------------------------------------------------

  /** Row `i` is rewritten by some step of the run. */
  ghost predicate Touched(j: Job, es: seq<TimedEvent>, i: nat)
    requires i < |j.rows|
    decreases |es|
  {
    es != [] &&
    (Step(j, es[0].event, es[0].now).rows[i].data != j.rows[i].data
     || Touched(Step(j, es[0].event, es[0].now), es[1..], i))
  }

  lemma StepRevisions(j: Job, e: Event, now: Time)
    requires RevisionsBounded(j)
    ensures var r := Step(j, e, now);
      && RevisionsBounded(r) && j.revision <= r.revision <= j.revision + 1
      && forall i :: 0 <= i < |j.rows| ==>
           && r.rows[i].data.index == j.rows[i].data.index
           && (if r.rows[i].data == j.rows[i].data then r.rows[i] == j.rows[i]
               else r.rows[i].revision == j.revision + 1)
  {
    if Mutate(j, e, now).Success? {
      MutateKeepsShape(j, e, now);
    }
  }

  /** Revisions only grow, and a row is newer than a past revision exactly when it was rewritten since. */
  lemma {:induction false} RunRevisions(j: Job, es: seq<TimedEvent>, base: nat, i: nat)
    requires RevisionsBounded(j) && base <= j.revision && i < |j.rows|
    ensures var r := Run(j, es);
      && RevisionsBounded(r) && j.revision <= r.revision
      && r.rows[i].data.index == j.rows[i].data.index
      && (r.rows[i].revision > base <==> j.rows[i].revision > base || Touched(j, es, i))
      && (!Touched(j, es, i) ==> r.rows[i] == j.rows[i])
    decreases |es|
  {
    if es != [] {
      StepRevisions(j, es[0].event, es[0].now);
      RunRevisions(Step(j, es[0].event, es[0].now), es[1..], base, i);
    }
  }

  lemma DeltaHead(rows: seq<Row>, since: nat, index: int)
    requires rows != []
    ensures FindView(RowsAfter(rows, since), index)
         == if rows[0].revision > since && rows[0].data.index == index then Some(ViewRow(rows[0]))
            else FindView(RowsAfter(rows[1..], since), index)
  {
    assert ([ViewRow(rows[0])] + RowsAfter(rows[1..], since))[1..] == RowsAfter(rows[1..], since);
  }

  lemma {:induction false} FindInDelta(rows: seq<Row>, since: nat, i: nat)
    requires UniqueIndices(rows) && i < |rows|
    ensures FindView(RowsAfter(rows, since), rows[i].data.index)
         == if rows[i].revision > since then Some(ViewRow(rows[i])) else None
  {
    if i == 0 {
      AbsentFromDelta(rows[1..], since, rows[0].data.index);
    } else {
      FindInDelta(rows[1..], since, i - 1);
    }
    DeltaHead(rows, since, rows[i].data.index);
  }

  lemma {:induction false} AbsentFromDelta(rows: seq<Row>, since: nat, index: int)
    requires forall k :: 0 <= k < |rows| ==> rows[k].data.index != index
    ensures FindView(RowsAfter(rows, since), index) == None
  {
    if rows != [] {
      AbsentFromDelta(rows[1..], since, index);
      DeltaHead(rows, since, index);
    }
  }

  lemma {:induction false} RunKeepsIndices(j: Job, es: seq<TimedEvent>)
    requires RevisionsBounded(j)
    ensures RevisionsBounded(Run(j, es)) && j.revision <= Run(j, es).revision
    ensures forall i :: 0 <= i < |j.rows| ==> Run(j, es).rows[i].data.index == j.rows[i].data.index
    decreases |es|
  {
    if es != [] {
      StepRevisions(j, es[0].event, es[0].now);
      RunKeepsIndices(Step(j, es[0].event, es[0].now), es[1..]);
    }
  }

  /**
   * Delta synchronisation is exact: overlaying the answer for the held revision on the rows held
   * at that revision gives precisely the rows of the full view after any run. A client that is ahead of
   * the stored job, whatever it holds, is given everything.
   */
  lemma DeltaIsExact(j: Job, es: seq<TimedEvent>)
    requires UniqueIndices(j.rows) && RevisionsBounded(j)
    ensures Overlay(PublicJob(j, None).rows, PublicJob(Run(j, es), Some(j.revision))) ==
      PublicJob(Run(j, es), None).rows
    ensures PublicJob(Run(j, es), Some(j.revision)).delta
    ensures forall held, since :: since > Run(j, es).revision ==>
      Overlay(held, PublicJob(Run(j, es), Some(since))) == PublicJob(Run(j, es), None).rows
  {
    var r := Run(j, es);
    var answer := PublicJob(r, Some(j.revision));
    RunKeepsIndices(j, es);
    assert UniqueIndices(r.rows) by {
      forall i, k | 0 <= i < k < |r.rows| ensures r.rows[i].data.index != r.rows[k].data.index {
        assert j.rows[i].data.index != j.rows[k].data.index;
      }
    }
    forall i | 0 <= i < |r.rows|
      ensures Overlay(FullRows(j.rows), answer)[i] == FullRows(r.rows)[i]
    {
      RunRevisions(j, es, j.revision, i);
      FindInDelta(r.rows, j.revision, i);
    }
  }

  /** The delta carries no row that the run left alone. */
  lemma DeltaIsMinimal(j: Job, es: seq<TimedEvent>, i: nat)
    requires UniqueIndices(j.rows) && RevisionsBounded(j) && i < |j.rows|
    ensures FindView(PublicJob(Run(j, es), Some(j.revision)).rows, j.rows[i].data.index).Some? <==> Touched(j, es, i)
  {
    var r := Run(j, es);
    RunKeepsIndices(j, es);
    assert UniqueIndices(r.rows) by {
      forall i, k | 0 <= i < k < |r.rows| ensures r.rows[i].data.index != r.rows[k].data.index {
        assert j.rows[i].data.index != j.rows[k].data.index;
      }
    }
    RunRevisions(j, es, j.revision, i);
    FindInDelta(r.rows, j.revision, i);
  }

  // ---- whole runs: bounded creation work ---------------------------------------------------------

  function Creates(j: Job, e: Event, now: Time, i: nat): nat
  {
    if e.Claim? && ClaimPick(j, now) == Create(i) then 1 else 0
  }

  function Recovers(j: Job, e: Event, i: nat): nat
    requires i < |j.rows|
  {
    if e.RecoverStale? && Stale(j.rows[i].data, e.cutoff) then 1 else 0
  }

  function Uploads(j: Job, e: Event, i: nat): nat
    requires i < |j.rows|
  {
    if e.MarkAssetsReady? && MarkError(j, e.owner, e.index, e.files, e.names).None?
      && FindRow(j.rows, e.index) == Some(i)
    then 1 else 0
  }

  /** How often row `i` is handed out for creation in a run. */
  function CreateCount(j: Job, es: seq<TimedEvent>, i: nat): nat
    decreases |es|
  {
    if es == [] then 0
    else Creates(j, es[0].event, es[0].now, i) + CreateCount(Step(j, es[0].event, es[0].now), es[1..], i)
  }

  /** How often row `i` is recovered or given its assets in a run. */
  function RefillCount(j: Job, es: seq<TimedEvent>, i: nat): nat
    requires i < |j.rows|
    decreases |es|
  {
    if es == [] then 0
    else Recovers(j, es[0].event, i) + Uploads(j, es[0].event, i)
         + RefillCount(Step(j, es[0].event, es[0].now), es[1..], i)
  }

  /** A queued row holds one claim, and each of the first four failed attempts grants one more. */
  function Potential(d: RowData): int
  {
    (if d.status == RowQueued then 1 else 0) - Min(d.createAttempts, MAX_CREATE_ATTEMPTS - 1)
  }

  lemma StepPayload(j: Job, e: Event, now: Time, i: nat)
    requires i < |j.rows|
    ensures Step(j, e, now).rows[i].data ==
      match Mutate(j, e, now) case Failure(_) => j.rows[i].data case Success(after) => after.rows[i].data
  {
    var r := Mutate(j, e, now);
    if r.Success? { StampKeepsPayload(j, r.value, now); }
  }

  lemma CancelPays(j: Job, reason: string, now: Time, i: nat)
    requires i < |j.rows|
    ensures Potential(CanceledJob(j, reason, now).rows[i].data) <= Potential(j.rows[i].data)
  {
  }

  lemma RecoverPays(j: Job, cutoff: Time, i: nat)
    requires i < |j.rows|
    ensures Potential(RecoveredJob(j, cutoff).rows[i].data)
         <= Potential(j.rows[i].data) + Recovers(j, RecoverStale(cutoff), i)
  {
  }

  lemma ReconcilePays(j: Job, tasks: map<string, Task>, now: Time, i: nat)
    requires i < |j.rows|
    ensures Potential(ReconciledJob(j, tasks, now).rows[i].data) <= Potential(j.rows[i].data)
  {
  }

  lemma ClaimPays(j: Job, now: Time, i: nat)
    requires i < |j.rows|
    ensures Creates(j, Claim, now, i) + Potential(ClaimedJob(j, now).rows[i].data) <= Potential(j.rows[i].data)
  {
  }

  lemma RowMutatorsPay(j: Job, k: nat, files: seq<string>, names: seq<string>, taskId: string, now: Time, i: nat)
    requires i < |j.rows| && k < |j.rows|
    ensures Potential(MarkedJob(j, k, files, names, now).rows[i].data)
         <= Potential(j.rows[i].data) + (if k == i then 1 else 0)
    ensures Potential(CreatedJob(j, k, taskId, now).rows[i].data) <= Potential(j.rows[i].data)
  {
  }

  lemma FailurePays(j: Job, k: nat, error: string, retry: bool, now: Time, i: nat)
    requires i < |j.rows| && k < |j.rows|
    ensures Potential(FailedJob(j, k, error, retry, now).rows[i].data) <= Potential(j.rows[i].data)
  {
  }

  lemma StepPaysForClaims(j: Job, e: Event, now: Time, i: nat)
    requires i < |j.rows|
    ensures Creates(j, e, now, i) + Potential(Step(j, e, now).rows[i].data)
         <= Potential(j.rows[i].data) + Recovers(j, e, i) + Uploads(j, e, i)
  {
    StepPayload(j, e, now, i);
    match e
    case Claim => ClaimPays(j, now, i);
    case Cancel(_, reason) => CancelPays(j, reason, now, i);
    case RecoverStale(cutoff) => RecoverPays(j, cutoff, i);
    case Reconcile(tasks) => ReconcilePays(j, tasks, now, i);
    case MarkAssetsReady(owner, index, files, names) =>
      if MarkError(j, owner, index, files, names).None? {
        RowMutatorsPay(j, FindRow(j.rows, index).value, files, names, "", now, i);
      }
    case FinishCreation(index, taskId) =>
      var at := FindRow(j.rows, index);
      if at.Some? { RowMutatorsPay(j, at.value, [], [], taskId, now, i); }
    case FailOrRequeue(index, error, retry) =>
      var at := FindRow(j.rows, index);
      if at.Some? { FailurePays(j, at.value, error, retry, now, i); }
  }

  lemma {:induction false} RunPaysForClaims(j: Job, es: seq<TimedEvent>, i: nat)
    requires i < |j.rows|
    ensures CreateCount(j, es, i) + Potential(Run(j, es).rows[i].data)
         <= Potential(j.rows[i].data) + RefillCount(j, es, i)
    decreases |es|
  {
    if es != [] {
      StepPaysForClaims(j, es[0].event, es[0].now, i);
      RunPaysForClaims(Step(j, es[0].event, es[0].now), es[1..], i);
    }
  }

  /** A fresh row is handed out at most five times, plus once per stale recovery and per upload. */
  lemma CreationWorkIsBounded(j: Job, es: seq<TimedEvent>, i: nat)
    requires i < |j.rows| && j.rows[i].data.createAttempts == 0
    ensures CreateCount(j, es, i) <= MAX_CREATE_ATTEMPTS + RefillCount(j, es, i)
  {
    RunPaysForClaims(j, es, i);
  }
}
