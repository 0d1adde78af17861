/** The leased task queue of `tasks.py`, with cancellation (`main.py`) and refresh joining
    (`subscription_worker.py`).  `config.publish` tasks, which are finished elsewhere, are not part of it. */
module TaskQueue {
  import opened Strings
  import opened Powers

  datatype Kind = Refresh | Probe | BackupCreate | BackupRestore

  datatype Status = Queued | Running | CancelRequested | Succeeded | Cancelled | DeadLetter

  /** `claims` and `backoff` are history variables: how often the task was claimed and the delay
      it was given in all. */
  datatype Task = Task(kind: Kind, target: string, key: string, status: Status, active: bool,
                       retryCount: nat, maxRetries: int, nextRunAt: int, createdAt: int,
                       lockedBy: string, lease: Option<int>, cancelRequested: bool,
                       claims: nat, backoff: nat)

  type Tasks = map<string, Task>

  const BACKOFF_BASE: nat := 5

  predicate Open(s: Status) {
    s == Queued || s == Running || s == CancelRequested
  }

  predicate Held(s: Status) {
    s == Running || s == CancelRequested
  }

  // ------------------------------------------------------------- transitions of one task

  function NewTask(kind: Kind, target: string, key: string, maxRetries: int, now: int): Task {
    Task(kind, target, key, Queued, true, 0, maxRetries, now, now, "", None, false, 0, 0)
  }

  predicate Due(t: Task, now: int) {
    t.status == Queued && t.active && t.nextRunAt <= now
  }

  function Claimed(t: Task, worker: string, now: int, leaseSeconds: nat): Task {
    t.(status := Running, lockedBy := worker, lease := Some(now + leaseSeconds), claims := t.claims + 1)
  }

  function Beaten(t: Task, now: int, leaseSeconds: nat): Task {
    t.(lease := Some(now + leaseSeconds))
  }

  function Completed(t: Task): Task {
    t.(status := if t.cancelRequested then Cancelled else Succeeded, active := false, lockedBy := "", lease := None)
  }

  /** `fail_task`: acknowledge a cancellation, give up, or schedule the next attempt. */
  function FailedTask(t: Task, now: int, retryable: bool): Task {
    var released := t.(lockedBy := "", lease := None);
    if t.cancelRequested then released.(status := Cancelled, active := false)
    else if !retryable || t.retryCount + 1 >= t.maxRetries then
      released.(retryCount := t.retryCount + 1, status := DeadLetter, active := false)
    else
      var delay := BACKOFF_BASE * Pow2(t.retryCount);
      released.(retryCount := t.retryCount + 1, status := Queued, active := true,
                nextRunAt := now + delay, backoff := t.backoff + delay)
  }

  function CancelledTask(t: Task): Task {
    match t.status
    case Queued => t.(status := Cancelled, active := false, lockedBy := "", lease := None)
    case Running => t.(cancelRequested := true, status := CancelRequested)
    case _ => t
  }

  predicate LeaseExpired(t: Task, now: int) {
    Held(t.status) && t.lease.Some? && t.lease.value < now
  }

  /** One task of `reclaim_expired_tasks`. */
  function Reclaimed(t: Task, now: int): Task {
    if t.cancelRequested then t.(status := Cancelled, active := false, lockedBy := "", lease := None)
    else FailedTask(t, now, true)
  }

  // --------------------------------------------------------------- what holds of one task

  function Attempts(t: Task): nat {
    if t.maxRetries > 1 then t.maxRetries else 1
  }

  predicate TaskOk(t: Task) {
    && (t.active <==> Open(t.status))
    && (t.lease.Some? <==> Held(t.status))
    && (t.status == CancelRequested ==> t.cancelRequested)
    && (t.cancelRequested ==> t.status == CancelRequested || t.status == Cancelled)
    && (t.status == Queued ==> t.claims == t.retryCount)
    && (Held(t.status) ==> t.claims == t.retryCount + 1)
    && (Open(t.status) ==> t.retryCount < Attempts(t) && t.backoff == BACKOFF_BASE * (Pow2(t.retryCount) - 1))
    && t.claims <= Attempts(t)
    && t.backoff <= BACKOFF_BASE * (Pow2(Attempts(t) - 1) - 1)
  }

  lemma NewTaskIsOk(kind: Kind, target: string, key: string, maxRetries: int, now: int)
    ensures TaskOk(NewTask(kind, target, key, maxRetries, now))
  {
    Pow2Monotone(0, Attempts(NewTask(kind, target, key, maxRetries, now)) - 1);
  }

  /** Failing keeps the bounds: the delays are 5, 10, 20, ... and their sum stays below the last one doubled. */
  lemma FailedIsOk(t: Task, now: int, retryable: bool)
    requires TaskOk(t) && Held(t.status)
    ensures TaskOk(FailedTask(t, now, retryable))
  {
    var f := FailedTask(t, now, retryable);
    if f.status == Queued {
      assert Pow2(t.retryCount + 1) == 2 * Pow2(t.retryCount);
      Pow2Monotone(f.retryCount, Attempts(f) - 1);
    }
  }

  // ------------------------------------------------------------------------- the collection

  /** Partial unique indexes: one active refresh, probe and restore per target. */
  predicate Indexed(k: Kind) {
    k != BackupCreate
  }

  predicate Clash(a: Task, b: Task) {
    a.active && b.active && a.kind == b.kind && Indexed(a.kind) && a.target == b.target
  }

  predicate Fine(tasks: Tasks) {
    && (forall id :: id in tasks ==> TaskOk(tasks[id]))
    && (forall a, b :: a in tasks && b in tasks && a != b ==>
          tasks[a].key != tasks[b].key && !Clash(tasks[a], tasks[b]))
  }

  predicate KeyTaken(tasks: Tasks, key: string) {
    exists id :: id in tasks && tasks[id].key == key
  }

  predicate TargetTaken(tasks: Tasks, kind: Kind, target: string) {
    exists id :: id in tasks && tasks[id].active && tasks[id].kind == kind && Indexed(kind)
      && tasks[id].target == target
  }

  /** An atomic database operation on the collection. */
  datatype Step =
    | Insert(id: string, kind: Kind, target: string, key: string, maxRetries: int, at: int)
    | Claim(id: string, worker: string, now: int, leaseSeconds: nat)
    | Beat(id: string, now: int, leaseSeconds: nat)
    | Finish(id: string, sourceDisabled: bool)
    | Failure(id: string, now: int, retryable: bool)
    | Cancel(id: string)
    | Reclaim(id: string, now: int)

  /** The new document at `id`, or `None` when the operation does not apply: a unique index refuses
      the insert, the filter of the update matches nothing, or the caller does not hold the task. */
  function Update(tasks: Tasks, step: Step): Option<Task> {
    match step
    case Insert(id, kind, target, key, maxRetries, at) =>
      if id in tasks || KeyTaken(tasks, key) || TargetTaken(tasks, kind, target) then None
      else Some(NewTask(kind, target, key, maxRetries, at))
    case Claim(id, worker, now, leaseSeconds) =>
      if id in tasks && Due(tasks[id], now) then Some(Claimed(tasks[id], worker, now, leaseSeconds)) else None
    case Beat(id, now, leaseSeconds) =>
      if id in tasks && Held(tasks[id].status) then Some(Beaten(tasks[id], now, leaseSeconds)) else None
    case Finish(id, sourceDisabled) =>
      if id in tasks && Held(tasks[id].status)
      then Some(Completed(if sourceDisabled then tasks[id].(cancelRequested := true) else tasks[id])) else None
    case Failure(id, now, retryable) =>
      if id in tasks && Held(tasks[id].status) then Some(FailedTask(tasks[id], now, retryable)) else None
    case Cancel(id) => if id in tasks then Some(CancelledTask(tasks[id])) else None
    case Reclaim(id, now) =>
      if id in tasks && LeaseExpired(tasks[id], now) then Some(Reclaimed(tasks[id], now)) else None
  }

  function Apply(tasks: Tasks, step: Step): Tasks {
    var u := Update(tasks, step);
    if u.None? then tasks else tasks[step.id := u.value]
  }

  lemma HolderStepsAreOk(t: Task, now: int, leaseSeconds: nat, disabled: bool)
    requires TaskOk(t) && Held(t.status)
    ensures TaskOk(Beaten(t, now, leaseSeconds))
    ensures TaskOk(Completed(if disabled then t.(cancelRequested := true) else t))
  {
  }

  lemma ClaimedIsOk(t: Task, worker: string, now: int, leaseSeconds: nat)
    requires TaskOk(t) && Due(t, now)
    ensures TaskOk(Claimed(t, worker, now, leaseSeconds))
  {
  }

  lemma CancelledIsOk(t: Task)
    requires TaskOk(t)
    ensures TaskOk(CancelledTask(t))
  {
  }

  /** Past an insert an operation changes one task, keeps its identity and never revives it. */
  predicate SameWork(was: Task, now: Task) {
    now.kind == was.kind && now.target == was.target && now.key == was.key && (now.active ==> was.active)
  }

  lemma UpdateIsOk(tasks: Tasks, step: Step)
    requires Fine(tasks) && Update(tasks, step).Some?
    ensures TaskOk(Update(tasks, step).value)
  {
    match step
    case Insert(_, kind, target, key, maxRetries, at) => NewTaskIsOk(kind, target, key, maxRetries, at);
    case Claim(id, worker, now, leaseSeconds) => ClaimedIsOk(tasks[id], worker, now, leaseSeconds);
    case Beat(id, now, leaseSeconds) => HolderStepsAreOk(tasks[id], now, leaseSeconds, false);
    case Finish(id, disabled) => HolderStepsAreOk(tasks[id], 0, 0, disabled);
    case Failure(id, now, retryable) => FailedIsOk(tasks[id], now, retryable);
    case Cancel(id) => CancelledIsOk(tasks[id]);
    case Reclaim(id, now) => FailedIsOk(tasks[id], now, true);
  }

  lemma UpdateIsSameWork(tasks: Tasks, step: Step)
    requires Fine(tasks) && Update(tasks, step).Some? && step.id in tasks
    ensures SameWork(tasks[step.id], Update(tasks, step).value)
  {
    assert TaskOk(tasks[step.id]);
  }

  lemma StepKeepsFine(tasks: Tasks, step: Step)
    requires Fine(tasks)
    ensures Fine(Apply(tasks, step))
  {
    if Update(tasks, step).Some? {
      UpdateIsOk(tasks, step);
      if step.id in tasks {
        UpdateIsSameWork(tasks, step);
      }
      ReplaceKeepsFine(tasks, step.id, Update(tasks, step).value);
    }
  }

  lemma ReplaceKeepsFine(tasks: Tasks, id: string, t: Task)
    requires Fine(tasks) && TaskOk(t)
    requires id in tasks ==> SameWork(tasks[id], t)
    requires id !in tasks ==> !KeyTaken(tasks, t.key) && !TargetTaken(tasks, t.kind, t.target)
    ensures Fine(tasks[id := t])
  {
    var after := tasks[id := t];
    forall other | other in tasks && other != id
      ensures tasks[other].key != t.key && !Clash(tasks[other], t) && !Clash(t, tasks[other])
    {
      if id in tasks {
        assert !Clash(tasks[other], tasks[id]) && !Clash(tasks[id], tasks[other]);
      }
    }
  }

  function Run(tasks: Tasks, steps: seq<Step>): Tasks
    decreases |steps|
  {
    if steps == [] then tasks else Run(Apply(tasks, steps[0]), steps[1..])
  }

  /** In every interleaving of operations: active and lease mirror the status, claims and total backoff
      stay within their bounds, and no target has two active refreshes, probes or restores. */
  lemma {:induction false} RunKeepsFine(tasks: Tasks, steps: seq<Step>)
    requires Fine(tasks)
    ensures Fine(Run(tasks, steps))
    decreases |steps|
  {
    if steps != [] {
      StepKeepsFine(tasks, steps[0]);
      RunKeepsFine(Apply(tasks, steps[0]), steps[1..]);
    }
  }

  /** Claims never exceed the retry budget and the total delay is at most 5 * (2^(max_retries-1) - 1). */
  lemma ReachableTaskBounds(steps: seq<Step>, id: string)
    requires id in Run(map[], steps)
    ensures var t := Run(map[], steps)[id];
            && t.claims <= Attempts(t)
            && t.backoff <= BACKOFF_BASE * (Pow2(Attempts(t) - 1) - 1)
  {
    RunKeepsFine(map[], steps);
  }

  /** Finished tasks stay finished, and a requested cancellation is never lost or requeued. */
  predicate Final(t: Task) {
    !Open(t.status) || t.cancelRequested
  }

  lemma StepKeepsFinal(tasks: Tasks, step: Step, id: string)
    requires Fine(tasks) && id in tasks && Final(tasks[id])
    ensures id in Apply(tasks, step) && Final(Apply(tasks, step)[id])
    ensures Apply(tasks, step)[id].status != Queued && Apply(tasks, step)[id].claims == tasks[id].claims
    ensures !Open(tasks[id].status) ==> Apply(tasks, step)[id].status == tasks[id].status
  {
    assert TaskOk(tasks[id]);
  }

  lemma {:induction false} CancelledIsNeverRequeued(tasks: Tasks, steps: seq<Step>, id: string)
    requires Fine(tasks) && id in tasks && Final(tasks[id])
    ensures var after := Run(tasks, steps);
            id in after && Final(after[id]) && after[id].status != Queued && after[id].claims == tasks[id].claims
    decreases |steps|
  {
    assert TaskOk(tasks[id]);
    if steps != [] {
      StepKeepsFine(tasks, steps[0]);
      StepKeepsFinal(tasks, steps[0], id);
      CancelledIsNeverRequeued(Apply(tasks, steps[0]), steps[1..], id);
    }
  }

  // ------------------------------------------------------------- what each operation means

  /** The same work under the same key; only the state of its execution may differ. */
  predicate SameIdentity(was: Task, now: Task) {
    && now.kind == was.kind && now.target == was.target && now.key == was.key
    && now.maxRetries == was.maxRetries && now.createdAt == was.createdAt
  }

  predicate Ended(was: Task, now: Task, status: Status) {
    now == was.(status := status, active := false, lockedBy := "", lease := None,
                cancelRequested := now.cancelRequested, retryCount := now.retryCount)
  }

  /** A failed attempt: a requested cancellation is acknowledged; a failure that may not be retried, or that
      used up the last attempt, is dead; any other waits 5, 10, 20, ... seconds from the failure on, as `backoff`
      records. */
  predicate FailsAs(was: Task, now: Task, at: int, retryable: bool) {
    if was.cancelRequested then Ended(was, now, Cancelled) && now.retryCount == was.retryCount
    else if !retryable || was.claims >= Attempts(was) then
      Ended(was, now, DeadLetter) && now.retryCount == was.retryCount + 1
    else
      && SameIdentity(was, now) && now.claims == was.claims && !now.cancelRequested
      && now.status == Queued && now.active && now.lease.None? && now.lockedBy == ""
      && now.retryCount == was.retryCount + 1
      && now.nextRunAt == at + 5 * Pow2(was.retryCount)
      && now.backoff - was.backoff == now.nextRunAt - at
  }

  /** When an operation applies to a stored task, and what it makes of it. */
  predicate Means(was: Task, step: Step, now: Option<Task>) {
    match step
    case Insert(_, _, _, _, _, _) => now.None?
    case Claim(_, worker, at, leaseSeconds) =>
      if was.status == Queued && was.nextRunAt <= at then
        now == Some(was.(status := Running, lockedBy := worker, lease := Some(at + leaseSeconds),
                         claims := was.claims + 1))
      else now.None?
    case Beat(_, at, leaseSeconds) =>
      if Held(was.status) then now == Some(was.(lease := Some(at + leaseSeconds))) else now.None?
    case Finish(_, sourceDisabled) =>
      if !Held(was.status) then now.None?
      else
        && now.Some?
        && Ended(was, now.value, if was.cancelRequested || sourceDisabled then Cancelled else Succeeded)
        && now.value.retryCount == was.retryCount
    case Failure(_, at, retryable) =>
      if Held(was.status) then now.Some? && FailsAs(was, now.value, at, retryable) else now.None?
    case Cancel(_) =>
      && now.Some?
      && if was.status == Queued then Ended(was, now.value, Cancelled) && now.value.retryCount == was.retryCount
         else if was.status == Running then now.value == was.(status := CancelRequested, cancelRequested := true)
         else now.value == was
    case Reclaim(_, at) =>
      if Held(was.status) && was.lease.Some? && was.lease.value < at
      then now.Some? && FailsAs(was, now.value, at, true) else now.None?
  }

  lemma LastAttempt(t: Task)
    requires TaskOk(t) && Held(t.status)
    ensures t.retryCount + 1 >= t.maxRetries <==> t.claims >= Attempts(t)
  {
  }

  lemma FailedMeans(t: Task, at: int, retryable: bool)
    requires TaskOk(t) && Held(t.status)
    ensures FailsAs(t, FailedTask(t, at, retryable), at, retryable)
    ensures FailsAs(t, Reclaimed(t, at), at, true)
  {
    LastAttempt(t);
  }

  /** Each operation applies exactly when it should and does what it should, to the one task it names. */
  lemma StepMeans(tasks: Tasks, step: Step)
    requires Fine(tasks) && step.id in tasks
    ensures Means(tasks[step.id], step, Update(tasks, step))
    ensures forall other :: other in tasks && other != step.id ==> Apply(tasks, step)[other] == tasks[other]
  {
    var t := tasks[step.id];
    assert TaskOk(t);
    if Held(t.status) && (step.Failure? || step.Reclaim?) {
      FailedMeans(t, step.now, if step.Failure? then step.retryable else true);
    }
  }

  /** A new task is due at once, has been tried by nobody and is the only new document. */
  lemma InsertMeans(tasks: Tasks, id: string, kind: Kind, target: string, key: string, maxRetries: int, at: int)
    requires Fine(tasks) && id !in tasks && !KeyTaken(tasks, key) && !TargetTaken(tasks, kind, target)
    ensures var after := Apply(tasks, Insert(id, kind, target, key, maxRetries, at));
            && after.Keys == tasks.Keys + {id}
            && after[id].kind == kind && after[id].target == target && after[id].key == key
            && after[id].maxRetries == maxRetries && after[id].status == Queued && after[id].active
            && after[id].nextRunAt == at && after[id].createdAt == at && after[id].retryCount == 0
            && after[id].claims == 0 && !after[id].cancelRequested && after[id].lockedBy == ""
            && after[id].lease.None? && after[id].backoff == 0
            && forall other :: other in tasks ==> after[other] == tasks[other]
  {
  }

  // A failed task rests: nobody claims it before its delay is over.

  /** No claim of the task in the steps happens at or after `until`. */
  predicate ClaimsBefore(steps: seq<Step>, id: string, until: int) {
    forall i :: 0 <= i < |steps| && steps[i].Claim? && steps[i].id == id ==> steps[i].now < until
  }

  predicate Resting(t: Task, was: Task) {
    && t.claims == was.claims && t.retryCount == was.retryCount
    && ((t.status == Queued && t.nextRunAt == was.nextRunAt) || t.status == Cancelled)
  }

  lemma StepRests(tasks: Tasks, step: Step, id: string, was: Task)
    requires Fine(tasks) && id in tasks && Resting(tasks[id], was)
    requires step.Claim? && step.id == id ==> step.now < was.nextRunAt
    ensures id in Apply(tasks, step) && Resting(Apply(tasks, step)[id], was)
  {
    if step.id == id {
      StepMeans(tasks, step);
    }
  }

  lemma {:induction false} RunRests(tasks: Tasks, steps: seq<Step>, id: string, was: Task)
    requires Fine(tasks) && id in tasks && Resting(tasks[id], was) && ClaimsBefore(steps, id, was.nextRunAt)
    ensures id in Run(tasks, steps) && Resting(Run(tasks, steps)[id], was)
    decreases |steps|
  {
    if steps != [] {
      StepRests(tasks, steps[0], id, was);
      StepKeepsFine(tasks, steps[0]);
      RunRests(Apply(tasks, steps[0]), steps[1..], id, was);
    }
  }

  /** After its k-th failure or reclaim at an instant no step claims the task for 5 * 2^(k-1) seconds, whatever
      else happens. */
  lemma BackoffIsKept(tasks: Tasks, failure: Step, steps: seq<Step>)
    requires Fine(tasks) && failure.id in tasks && (failure.Failure? || failure.Reclaim?)
    requires Update(tasks, failure).Some? && Update(tasks, failure).value.status == Queued
    requires var k := Update(tasks, failure).value.retryCount;
             k >= 1 ==> ClaimsBefore(steps, failure.id, failure.now + 5 * Pow2(k - 1))
    ensures var failed := Update(tasks, failure).value;
            var after := Run(Apply(tasks, failure), steps);
            && failed.retryCount >= 1
            && failure.id in after && after[failure.id].claims == failed.claims && !Held(after[failure.id].status)
  {
    var failed := Update(tasks, failure).value;
    StepMeans(tasks, failure);
    assert TaskOk(tasks[failure.id]);
    assert failed.nextRunAt == failure.now + 5 * Pow2(failed.retryCount - 1);
    StepKeepsFine(tasks, failure);
    RunRests(Apply(tasks, failure), steps, failure.id, failed);
  }

  // --------------------------------------------------------------------------------- methods

  datatype Creation = Existing(id: string) | Created(id: string) | DuplicateActive

  predicate Earlier(a: Task, b: Task) {
    a.nextRunAt < b.nextRunAt || (a.nextRunAt == b.nextRunAt && a.createdAt <= b.createdAt)
  }

  /** The status query of `enqueue_refresh_task`. */
  predicate OpenRefresh(tasks: Tasks, source: string) {
    exists t :: t in tasks && tasks[t].kind == Refresh && tasks[t].target == source && Open(tasks[t].status)
  }

  /** The status query and the unique index on `active` see the same tasks. */
  lemma OpenIsTaken(tasks: Tasks, source: string)
    requires Fine(tasks)
    ensures OpenRefresh(tasks, source) <==> TargetTaken(tasks, Refresh, source)
    ensures forall t :: t in tasks && Open(tasks[t].status) ==> tasks[t].active
  {
    assert forall t :: t in tasks ==> TaskOk(tasks[t]);
  }

  /** A due task of the kind that no other due task of the kind precedes. */
  predicate LongestDue(tasks: Tasks, kind: Kind, now: int, id: string) {
    && id in tasks && tasks[id].kind == kind && Due(tasks[id], now)
    && forall t :: t in tasks && tasks[t].kind == kind && Due(tasks[t], now) ==> Earlier(tasks[id], tasks[t])
  }

  method FindDue(tasks: Tasks, kind: Kind, now: int) returns (found: Option<string>)
    ensures found.Some? ==> LongestDue(tasks, kind, now, found.value)
    ensures found.None? ==> forall t :: t in tasks ==> !(tasks[t].kind == kind && Due(tasks[t], now))
  {
    found := None;
    var remaining := tasks.Keys;
    while remaining != {}
      invariant remaining <= tasks.Keys
      invariant found.Some? ==> found.value in tasks && tasks[found.value].kind == kind && Due(tasks[found.value], now)
      invariant forall t :: t in tasks && t !in remaining && tasks[t].kind == kind && Due(tasks[t], now) ==>
                  found.Some? && Earlier(tasks[found.value], tasks[t])
      decreases |remaining|
    {
      var t :| t in remaining;
      remaining := remaining - {t};
      if tasks[t].kind == kind && Due(tasks[t], now) && (found.None? || !Earlier(tasks[found.value], tasks[t])) {
        found := Some(t);
      }
    }
  }

  function AfterReclaim(t: Task, kind: Kind, now: int): Task {
    if t.kind == kind && LeaseExpired(t, now) then Reclaimed(t, now) else t
  }

  /** Midway through the reclaim loop: tasks in `pending` are untouched, the others are done. */
  predicate Reclaiming(before: Tasks, tasks: Tasks, pending: set<string>, kind: Kind, now: int) {
    && tasks.Keys == before.Keys && pending <= before.Keys
    && (forall t :: t in pending ==> tasks[t] == before[t] && before[t].kind == kind && LeaseExpired(before[t], now))
    && (forall t :: t in before && t !in pending ==> tasks[t] == AfterReclaim(before[t], kind, now))
  }

  function ExpiredTasks(tasks: Tasks, kind: Kind, now: int): set<string> {
    set t | t in tasks && tasks[t].kind == kind && LeaseExpired(tasks[t], now)
  }

  lemma ReclaimingStarts(tasks: Tasks, kind: Kind, now: int)
    ensures Reclaiming(tasks, tasks, ExpiredTasks(tasks, kind, now), kind, now)
  {
  }

  lemma ReclaimingStep(before: Tasks, tasks: Tasks, pending: set<string>, kind: Kind, now: int, id: string)
    requires Reclaiming(before, tasks, pending, kind, now) && id in pending
    ensures Reclaiming(before, tasks[id := Reclaimed(tasks[id], now)], pending - {id}, kind, now)
    ensures LeaseExpired(tasks[id], now)
  {
    var next := tasks[id := Reclaimed(tasks[id], now)];
    assert next[id] == AfterReclaim(before[id], kind, now);
    assert next.Keys == tasks.Keys;
    forall t | t in before && t !in pending - {id} ensures next[t] == AfterReclaim(before[t], kind, now) {
    }
  }

  lemma ReclaimingKeepsFine(tasks: Tasks, now: int, id: string)
    requires Fine(tasks) && id in tasks && LeaseExpired(tasks[id], now)
    ensures Fine(tasks[id := Reclaimed(tasks[id], now)])
  {
    StepKeepsFine(tasks, Reclaim(id, now));
  }

  lemma ReclaimMeans(tasks: Tasks, kind: Kind, now: int)
    requires Fine(tasks)
    ensures forall t :: t in tasks ==>
              var was := tasks[t];
              if was.kind == kind && Held(was.status) && was.lease.Some? && was.lease.value < now
              then FailsAs(was, AfterReclaim(was, kind, now), now, true) else AfterReclaim(was, kind, now) == was
  {
    forall t | t in tasks && LeaseExpired(tasks[t], now)
      ensures FailsAs(tasks[t], Reclaimed(tasks[t], now), now, true)
    {
      assert TaskOk(tasks[t]);
      FailedMeans(tasks[t], now, true);
    }
  }

  class TaskStore {
    var tasks: Tasks

    constructor ()
      ensures tasks == map[] && Fine(tasks)
    {
      tasks := map[];
    }

    /** `create_task`; a clash on an active index is raised to the caller. */
    method CreateTask(id: string, kind: Kind, target: string, key: string, maxRetries: int,
                      now: int) returns (r: Creation)
      requires Fine(tasks) && id !in tasks
      modifies this
      ensures tasks == Apply(old(tasks), Insert(id, kind, target, key, maxRetries, now)) && Fine(tasks)
      ensures r.Existing? <==> KeyTaken(old(tasks), key)
      ensures r.Existing? ==> r.id in tasks && tasks[r.id].key == key
      ensures r.Created? ==> r.id == id && id in tasks
      ensures r == DuplicateActive <==> !KeyTaken(old(tasks), key) && TargetTaken(old(tasks), kind, target)
      ensures r.Created? ==>
                && tasks[id].status == Queued && tasks[id].nextRunAt == now && tasks[id].key == key
                && tasks[id].kind == kind && tasks[id].target == target && tasks[id].retryCount == 0
    {
      StepKeepsFine(tasks, Insert(id, kind, target, key, maxRetries, now));
      if KeyTaken(tasks, key) {
        var existing :| existing in tasks && tasks[existing].key == key;
        return Existing(existing);
      }
      if TargetTaken(tasks, kind, target) {
        return DuplicateActive;
      }
      tasks := tasks[id := NewTask(kind, target, key, maxRetries, now)];
      r := Created(id);
    }

    /** `enqueue_refresh_task`: an unfinished refresh of the source is joined, never doubled. */
    method EnqueueRefresh(id: string, source: string, key: string, maxRetries: int, now: int) returns (task: string,
                          merged: bool)
      requires Fine(tasks) && id !in tasks
      modifies this
      ensures Fine(tasks) && task in tasks
      ensures old(TargetTaken(tasks, Refresh, source)) ==>
                merged && tasks == old(tasks) && tasks[task].kind == Refresh && tasks[task].target == source
                  && tasks[task].active
      ensures !old(TargetTaken(tasks, Refresh, source)) ==> (merged <==> old(KeyTaken(tasks, key)))
      ensures !merged ==> task == id && tasks == old(tasks)[id := NewTask(Refresh, source, key, maxRetries, now)]
    {
      OpenIsTaken(tasks, source);
      if OpenRefresh(tasks, source) {
        task :| task in tasks && tasks[task].kind == Refresh && tasks[task].target == source
          && Open(tasks[task].status);
        return task, true;
      }
      var created := CreateTask(id, Refresh, source, key, maxRetries, now);
      task, merged := created.id, created.Existing?;
    }

    /** `claim_due_task`: the due task that has waited longest, claimed in one atomic update. */
    method ClaimDue(kind: Kind, worker: string, now: int, leaseSeconds: nat) returns (claimed: Option<string>)
      requires Fine(tasks)
      modifies this
      ensures Fine(tasks)
      ensures claimed.None? ==>
                tasks == old(tasks) && forall t :: t in tasks ==> !(tasks[t].kind == kind && Due(tasks[t], now))
      ensures claimed.Some? ==>
                && LongestDue(old(tasks), kind, now, claimed.value)
                && tasks == Apply(old(tasks), Claim(claimed.value, worker, now, leaseSeconds))
      ensures claimed.Some? ==>
                && tasks[claimed.value].status == Running && tasks[claimed.value].lockedBy == worker
                && tasks[claimed.value].lease == Some(now + leaseSeconds)
                && claimed.value in old(tasks) && old(tasks)[claimed.value].kind == kind
                && old(tasks)[claimed.value].status == Queued && old(tasks)[claimed.value].nextRunAt <= now
                && (forall t :: t in old(tasks) && old(tasks)[t].kind == kind && old(tasks)[t].status == Queued ==>
                      || old(tasks)[claimed.value].nextRunAt < old(tasks)[t].nextRunAt
                      || (old(tasks)[claimed.value].nextRunAt == old(tasks)[t].nextRunAt
                          && old(tasks)[claimed.value].createdAt <= old(tasks)[t].createdAt))
    {
      assert forall t :: t in tasks ==> TaskOk(tasks[t]);
      claimed := FindDue(tasks, kind, now);
      if claimed.Some? {
        StepKeepsFine(tasks, Claim(claimed.value, worker, now, leaseSeconds));
        tasks := tasks[claimed.value := Claimed(tasks[claimed.value], worker, now, leaseSeconds)];
      }
    }

    /** `reclaim_expired_tasks`: the loop over the tasks whose lease has run out. */
    method ReclaimExpired(kind: Kind, now: int)
      requires Fine(tasks)
      modifies this
      ensures Fine(tasks) && tasks.Keys == old(tasks).Keys
      ensures forall t :: t in tasks ==> tasks[t] == AfterReclaim(old(tasks)[t], kind, now)
      ensures forall t :: t in tasks ==>
                var was := old(tasks)[t];
                if was.kind == kind && Held(was.status) && was.lease.Some? && was.lease.value < now
                then FailsAs(was, tasks[t], now, true) else tasks[t] == was
    {
      ReclaimMeans(tasks, kind, now);
      var expired := ExpiredTasks(tasks, kind, now);
      ReclaimingStarts(tasks, kind, now);
      while expired != {}
        invariant Fine(tasks) && Reclaiming(old(tasks), tasks, expired, kind, now)
        decreases |expired|
      {
        var t :| t in expired;
        ReclaimingStep(old(tasks), tasks, expired, kind, now, t);
        ReclaimingKeepsFine(tasks, now, t);
        tasks := tasks[t := Reclaimed(tasks[t], now)];
        expired := expired - {t};
      }
    }
  }
}
