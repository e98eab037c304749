/** The scheduler's invariant holds in every interleaving of schedules, timers,
    task turns, settlements and continuations. */
module SchedulerInvariants {
  import opened Wrappers
  import opened MapSums
  import opened ExecutorModel
  import opened ExecutorInvariants
  import opened ExecutorEffects
  import opened SchedulerModel

  // ------------------------------------------------------------ other keys

  /** Steps about key k leave the bookkeeping of key j alone. */
  ghost predicate SameBooks<K, V>(s: Sched<K, V>, s': Sched<K, V>, j: K)
  {
    && (j in s.workers <==> j in s'.workers) && (j in s.workers ==> s'.workers[j] == s.workers[j])
    && (j in s.settled <==> j in s'.settled) && (j in s.settled ==> s'.settled[j] == s.settled[j])
    && ProcessingOf(s', j) == ProcessingOf(s, j)
    && (j in s.lastScheduled <==> j in s'.lastScheduled)
    && (j in s.lastScheduled ==> s'.lastScheduled[j] == s.lastScheduled[j])
    && (j in s.reported <==> j in s'.reported) && (j in s.reported ==> s'.reported[j] == s.reported[j])
    && (j in s.underway <==> j in s'.underway) && s.metrics.scheduled <= s'.metrics.scheduled
  }

  /** ... and its executor state at most dispatched. */
  ghost predicate Undisturbed<K, V>(s: Sched<K, V>, s': Sched<K, V>, j: K)
  {
    SameBooks(s, s', j) && PumpedFrom(StateOf(s.exec, j), StateOf(s'.exec, j))
  }

  lemma UndisturbedStaysOk<K(!new), V(!new)>(s: Sched<K, V>, s': Sched<K, V>, j: K)
    requires KeyOk(s, j) && Undisturbed(s, s', j)
    ensures KeyOk(s', j)
  {
  }

  // ------------------------------------------------------------------ the key

  /** Both places that submit, for a key without a worker and in a continuation, find
      the key idle in the executor: they never meet the per-key limit of one, and a
      refusal can only be the global bound. */
  lemma SubmissionFindsKeyIdle<K(!new), V(!new)>(s: Sched<K, V>, b: Budgets, k: K)
    requires SchedInv(s, b) && (k !in s.workers || k in s.settled)
    ensures StateOf(s.exec, k) == IDLE && |StateOf(s.exec, k).pending| < b.maxPendingPerKey
    ensures !CanRun(s.exec, b, k) <==> s.exec.active == b.maxConcurrent && s.exec.waiting == b.maxPending
  {
    assert KeyOk(s, k);
  }

  /** The worker about to be submitted: its key idle, its value newest of those handed over. */
  ghost predicate Submittable<K, V>(s: Sched<K, V>, k: K)
  {
    && k in s.workers && StateOf(s.exec, k) == IDLE && k !in s.settled
    && s.workers[k].next.None? && k in s.lastScheduled && k !in s.underway
    && s.lastScheduled[k] == s.workers[k].submitted.number < s.metrics.scheduled
    && StrictlyIncreasing(ProcessingOf(s, k)) && AllBelow(ProcessingOf(s, k), s.workers[k].submitted.number)
  }

  lemma LapsedKey<K(!new), V(!new)>(s: Sched<K, V>, k: K, cause: Cause)
    requires Submittable(s, k)
    ensures KeyOk(Lapsed(s, k, cause), k)
  {
  }

  lemma RefusedKey<K(!new), V(!new)>(s: Sched<K, V>, b: Budgets, k: K, runNow: int)
    requires Submittable(s, k) && StateOf(Admit(s.exec, b, k, runNow), k) == IDLE
    ensures KeyOk(Refused(s, b, k, runNow), k)
  {
  }

  lemma AcceptedKey<K(!new), V(!new)>(s: Sched<K, V>, b: Budgets, k: K, runNow: int)
    requires Submittable(s, k)
    requires PumpedFrom(KeyState(None, [Task(s.exec.promises, runNow)]), StateOf(Admit(s.exec, b, k, runNow), k))
    ensures KeyOk(Accepted(s, b, k, runNow), k)
  {
  }

  lemma SubmitKey<K(!new), V(!new)>(s: Sched<K, V>, b: Budgets, k: K, now: int, runNow: int)
    requires SchedulerBudgets(b) && Inv(s.exec, b) && Submittable(s, k)
    ensures KeyOk(Submit(s, b, k, now, runNow), k) && Inv(Submit(s, b, k, now, runNow).exec, b)
  {
    AdmitKeepsInv(s.exec, b, k, runNow);
    AdmitKey(s.exec, b, k, runNow);
    var age := now - s.workers[k].submitted.enqueuedAt;
    if age >= b.maxQueueAgeMs { LapsedKey(s, k, Aged(age)); }
    else if CanRun(s.exec, b, k) { AcceptedKey(s, b, k, runNow); }
    else { RefusedKey(s, b, k, runNow); }
  }

  lemma LapsedBooks<K(!new), V(!new)>(s: Sched<K, V>, k: K, cause: Cause, j: K)
    requires j != k
    ensures SameBooks(s, Lapsed(s, k, cause), j) && Lapsed(s, k, cause).exec == s.exec
  {
  }

  lemma RefusedBooks<K(!new), V(!new)>(s: Sched<K, V>, b: Budgets, k: K, runNow: int, j: K)
    requires j != k
    ensures SameBooks(s, Refused(s, b, k, runNow), j) && Refused(s, b, k, runNow).exec == Admit(s.exec, b, k, runNow)
  {
  }

  lemma AcceptedBooks<K(!new), V(!new)>(s: Sched<K, V>, b: Budgets, k: K, runNow: int, j: K)
    requires k in s.workers && j != k
    ensures SameBooks(s, Accepted(s, b, k, runNow), j) && Accepted(s, b, k, runNow).exec == Admit(s.exec, b, k, runNow)
  {
  }

  lemma SubmitOthers<K(!new), V(!new)>(s: Sched<K, V>, b: Budgets, k: K, now: int, runNow: int, j: K)
    requires Inv(s.exec, b) && k in s.workers && j != k
    ensures Undisturbed(s, Submit(s, b, k, now, runNow), j)
  {
    AdmitOthers(s.exec, b, k, runNow, j);
    var age := now - s.workers[k].submitted.enqueuedAt;
    if age >= b.maxQueueAgeMs { LapsedBooks(s, k, Aged(age), j); }
    else if CanRun(s.exec, b, k) { AcceptedBooks(s, b, k, runNow, j); }
    else { RefusedBooks(s, b, k, runNow, j); }
  }

  // ----------------------------------------------------------------- schedule

  lemma ScheduleNewKey<K(!new), V(!new)>(s: Sched<K, V>, b: Budgets, k: K, value: V, at: Readings)
    requires SchedulerBudgets(b) && Inv(s.exec, b) && KeyOk(s, k) && k !in s.workers
    ensures KeyOk(Schedule(s, b, k, value, at), k) && Inv(Schedule(s, b, k, value, at).exec, b)
  {
    SubmitKey(WithWorker(Numbered(s, k), k, Item(value, s.metrics.scheduled, at.now)), b, k, at.submitNow, at.runNow);
  }

  lemma ScheduleKnownKey<K(!new), V(!new)>(s: Sched<K, V>, b: Budgets, k: K, value: V, at: Readings)
    requires KeyOk(s, k) && k in s.workers
    ensures KeyOk(Schedule(s, b, k, value, at), k)
  {
  }

  lemma ScheduleKey<K(!new), V(!new)>(s: Sched<K, V>, b: Budgets, k: K, value: V, at: Readings)
    requires SchedulerBudgets(b) && Inv(s.exec, b) && KeyOk(s, k)
    ensures KeyOk(Schedule(s, b, k, value, at), k) && Inv(Schedule(s, b, k, value, at).exec, b)
  {
    if k !in s.workers {
      ScheduleNewKey(s, b, k, value, at);
    } else {
      ScheduleKnownKey(s, b, k, value, at);
      RefreshKeepsInv(s.exec, b, k, s.workers[k].promise.value, at.runNow);
    }
  }

  lemma ReplacedOthers<K(!new), V(!new)>(s: Sched<K, V>, k: K, item: Item<V>, runNow: int, j: K)
    requires k in s.workers && j != k
    ensures Undisturbed(s, Replaced(s, k, item, runNow), j)
  {
  }

  lemma ScheduleOthers<K(!new), V(!new)>(s: Sched<K, V>, b: Budgets, k: K, value: V, at: Readings, j: K)
    requires Inv(s.exec, b) && j != k
    ensures Undisturbed(s, Schedule(s, b, k, value, at), j)
  {
    var item := Item(value, s.metrics.scheduled, at.now);
    if k !in s.workers {
      SubmitOthers(WithWorker(Numbered(s, k), k, item), b, k, at.submitNow, at.runNow, j);
    } else {
      ReplacedOthers(Numbered(s, k), k, item, at.runNow, j);
    }
  }

  // ------------------------------------------------------------- the executor

  lemma TimerKey<K(!new), V(!new)>(s: Sched<K, V>, b: Budgets, k: K, promise: nat)
    requires SchedInv(s, b)
    ensures KeyOk(TimerFires(s, k, promise), k)
  {
    assert KeyOk(s, k);
    var pending := StateOf(s.exec, k).pending;
    if promise in PromisesOf(pending) {
      assert pending == [pending[0]];
      assert pending[..0] + pending[1..] == [];
    }
  }

  lemma TimerOthers<K(!new), V(!new)>(s: Sched<K, V>, k: K, promise: nat, j: K)
    requires j != k
    ensures Undisturbed(s, TimerFires(s, k, promise), j)
  {
  }

  lemma BeginKey<K(!new), V(!new)>(s: Sched<K, V>, b: Budgets, k: K, now: int, workNow: int)
    requires KeyOk(s, k) && CanBegin(s, k)
    ensures KeyOk(TaskBegins(s, b, k, now, workNow), k)
  {
    var w := s.workers[k];
    var begun := s.(exec := Begin(s.exec, b, k, now));
    assert OnCourse(s, k, w) && Awaiting(StateOf(s.exec, k), w, w.promise.value);
    if begun.exec.states[k].active.value.phase.Overdue? {
      assert OnCourse(begun, k, w) && Underway(begun, k, w, w.promise.value);
    } else {
      EnteringIsOk(begun, b, k, workNow);
    }
  }

  lemma EnteringIsOk<K(!new), V(!new)>(s: Sched<K, V>, b: Budgets, k: K, workNow: int)
    requires k in s.workers && !s.workers[k].started && OnCourse(s, k, s.workers[k]) && k !in s.settled
    requires s.workers[k].promise.Some? &&
      Entered(StateOf(s.exec, k), s.workers[k].(started := true), s.workers[k].promise.value)
    requires StrictlyIncreasing(ProcessingOf(s, k)) && s.lastScheduled[k] < s.metrics.scheduled
    ensures KeyOk(WorkEntered(s, b, k, workNow), k)
  {
    var w, s' := s.workers[k], WorkEntered(s, b, k, workNow);
    var n, was := w.submitted.number, ProcessingOf(s, k);
    HandOver(was, n);
    assert ProcessingOf(s', k) == was || ProcessingOf(s', k) == was + [n];
    assert Answered(s', k, n);
    assert OnCourse(s', k, s'.workers[k]);
    assert Underway(s', k, s'.workers[k], w.promise.value);
  }

  lemma HandOver(was: seq<nat>, n: nat)
    requires StrictlyIncreasing(was) && AllBelow(was, n)
    ensures StrictlyIncreasing(was + [n]) && AllBelow(was + [n], n + 1) && AllBelow(was, n + 1)
  {
  }

  lemma BeginOthers<K(!new), V(!new)>(s: Sched<K, V>, b: Budgets, k: K, now: int, workNow: int, j: K)
    requires CanBegin(s, k) && j != k
    ensures Undisturbed(s, TaskBegins(s, b, k, now, workNow), j)
  {
    BeginBooks(s, b, k, now, workNow, j);
  }

  lemma BeginBooks<K(!new), V(!new)>(s: Sched<K, V>, b: Budgets, k: K, now: int, workNow: int, j: K)
    requires CanBegin(s, k) && j != k
    ensures SameBooks(s, TaskBegins(s, b, k, now, workNow), j)
    ensures TaskBegins(s, b, k, now, workNow).exec == Begin(s.exec, b, k, now)
  {
    if k in s.workers { EnteredBooks(s.(exec := Begin(s.exec, b, k, now)), b, k, workNow, j); }
  }

  lemma EnteredBooks<K(!new), V(!new)>(s: Sched<K, V>, b: Budgets, k: K, workNow: int, j: K)
    requires k in s.workers && j != k
    ensures SameBooks(s, WorkEntered(s, b, k, workNow), j) && WorkEntered(s, b, k, workNow).exec == s.exec
  {
  }

  lemma SettleKey<K(!new), V(!new)>(s: Sched<K, V>, b: Budgets, k: K, threw: bool)
    requires SchedInv(s, b) && CanSettle(s, k)
    ensures KeyOk(TaskSettles(s, b, k, threw), k)
  {
    assert KeyOk(s, k);
    CompleteEffect(s.exec, b, k, k);
  }

  lemma ProcessedBooks<K(!new), V(!new)>(s: Sched<K, V>, s': Sched<K, V>, k: K, threw: bool, j: K)
    requires j != k && SameBooks(s, s', j)
    ensures SameBooks(s, Processed(s', k, threw), j) && Processed(s', k, threw).exec == s'.exec
  {
  }

  lemma SettleOthers<K(!new), V(!new)>(s: Sched<K, V>, b: Budgets, k: K, threw: bool, j: K)
    requires SchedInv(s, b) && CanSettle(s, k) && j != k
    ensures Undisturbed(s, TaskSettles(s, b, k, threw), j)
  {
    CompleteEffect(s.exec, b, k, j);
    FreedBooks(s, b, k, j);
    ProcessedBooks(s, Freed(s, b, k), k, threw, j);
  }

  lemma FreedBooks<K(!new), V(!new)>(s: Sched<K, V>, b: Budgets, k: K, j: K)
    requires CanSettle(s, k) && j != k
    ensures SameBooks(s, Freed(s, b, k), j) && Freed(s, b, k).exec == Complete(s.exec, b, k)
  {
  }

  // ------------------------------------------------------------ continuation

  lemma ContinueKey<K(!new), V(!new)>(s: Sched<K, V>, b: Budgets, k: K, now: int, runNow: int)
    requires SchedInv(s, b) && k in s.settled
    ensures KeyOk(Continue(s, b, k, now, runNow), k) && Inv(Continue(s, b, k, now, runNow).exec, b)
  {
    assert KeyOk(s, k);
    if k in s.workers && s.settled[k].rejection.None? && s.workers[k].next.Some? {
      var w := s.workers[k];
      var resubmitted := s.workers[k := w.(submitted := w.next.value, next := None)];
      SubmitKey(s.(settled := s.settled - {k}, workers := resubmitted), b, k, now, runNow);
    }
  }

  lemma ContinueOthers<K(!new), V(!new)>(s: Sched<K, V>, b: Budgets, k: K, now: int, runNow: int, j: K)
    requires Inv(s.exec, b) && k in s.settled && j != k
    ensures Undisturbed(s, Continue(s, b, k, now, runNow), j)
  {
    if k in s.workers && s.settled[k].rejection.None? && s.workers[k].next.Some? {
      var w := s.workers[k];
      var resubmitted := s.workers[k := w.(submitted := w.next.value, next := None)];
      SubmitOthers(s.(settled := s.settled - {k}, workers := resubmitted), b, k, now, runNow, j);
    }
  }

  // ---------------------------------------------------------- steps keep it

  lemma ScheduleKeepsInv<K(!new), V(!new)>(s: Sched<K, V>, b: Budgets, k: K, value: V, at: Readings)
    requires SchedInv(s, b)
    ensures SchedInv(Schedule(s, b, k, value, at), b)
  {
    assert KeyOk(s, k);
    ScheduleKey(s, b, k, value, at);
    forall j ensures KeyOk(Schedule(s, b, k, value, at), j) {
      if j != k { ScheduleOthers(s, b, k, value, at, j); UndisturbedStaysOk(s, Schedule(s, b, k, value, at), j); }
    }
  }

  lemma TimerKeepsInv<K(!new), V(!new)>(s: Sched<K, V>, b: Budgets, k: K, promise: nat)
    requires SchedInv(s, b)
    ensures SchedInv(TimerFires(s, k, promise), b)
  {
    TimerKey(s, b, k, promise);
    ExpireKeepsInv(s.exec, b, k, promise);
    forall j ensures KeyOk(TimerFires(s, k, promise), j) {
      if j != k { TimerOthers(s, k, promise, j); UndisturbedStaysOk(s, TimerFires(s, k, promise), j); }
    }
  }

  lemma BeginKeepsSchedInv<K(!new), V(!new)>(s: Sched<K, V>, b: Budgets, k: K, now: int, workNow: int)
    requires SchedInv(s, b) && CanBegin(s, k)
    ensures SchedInv(TaskBegins(s, b, k, now, workNow), b)
  {
    assert KeyOk(s, k);
    BeginKey(s, b, k, now, workNow);
    BeginKeepsInv(s.exec, b, k, now);
    forall j ensures KeyOk(TaskBegins(s, b, k, now, workNow), j) {
      if j != k { BeginOthers(s, b, k, now, workNow, j); UndisturbedStaysOk(s, TaskBegins(s, b, k, now, workNow), j); }
    }
  }

  lemma SettleKeepsInv<K(!new), V(!new)>(s: Sched<K, V>, b: Budgets, k: K, threw: bool)
    requires SchedInv(s, b) && CanSettle(s, k)
    ensures SchedInv(TaskSettles(s, b, k, threw), b)
  {
    SettleKey(s, b, k, threw);
    CompleteKeepsInv(s.exec, b, k);
    forall j ensures KeyOk(TaskSettles(s, b, k, threw), j) {
      if j != k { SettleOthers(s, b, k, threw, j); UndisturbedStaysOk(s, TaskSettles(s, b, k, threw), j); }
    }
  }

  lemma ContinueKeepsInv<K(!new), V(!new)>(s: Sched<K, V>, b: Budgets, k: K, now: int, runNow: int)
    requires SchedInv(s, b) && k in s.settled
    ensures SchedInv(Continue(s, b, k, now, runNow), b)
  {
    ContinueKey(s, b, k, now, runNow);
    forall j ensures KeyOk(Continue(s, b, k, now, runNow), j) {
      if j != k { ContinueOthers(s, b, k, now, runNow, j); UndisturbedStaysOk(s, Continue(s, b, k, now, runNow), j); }
    }
  }

  // --------------------------------------------------------------- whole runs

  datatype Op<K, V> =
    | ScheduleOp(key: K, value: V, readings: Readings)
    | TimerOp(key: K, promise: nat)
    | BeginOp(key: K, now: int, workNow: int)
    | SettleOp(key: K, threw: bool)
    | ContinueOp(key: K, now: int, runNow: int)

  function Step<K, V>(s: Sched<K, V>, b: Budgets, op: Op<K, V>): Sched<K, V>
  {
    match op
    case ScheduleOp(k, value, at) => Schedule(s, b, k, value, at)
    case TimerOp(k, promise) => TimerFires(s, k, promise)
    case BeginOp(k, now, workNow) => if CanBegin(s, k) then TaskBegins(s, b, k, now, workNow) else s
    case SettleOp(k, threw) => if CanSettle(s, k) then TaskSettles(s, b, k, threw) else s
    case ContinueOp(k, now, runNow) => if k in s.settled then Continue(s, b, k, now, runNow) else s
  }

  function Run<K, V>(s: Sched<K, V>, b: Budgets, ops: seq<Op<K, V>>): Sched<K, V>
    decreases |ops|
  {
    if ops == [] then s else Run(Step(s, b, ops[0]), b, ops[1..])
  }

  lemma StepKeepsInv<K(!new), V(!new)>(s: Sched<K, V>, b: Budgets, op: Op<K, V>)
    requires SchedInv(s, b)
    ensures SchedInv(Step(s, b, op), b)
  {
    match op {
      case ScheduleOp(k, value, at) => ScheduleKeepsInv(s, b, k, value, at);
      case TimerOp(k, promise) => TimerKeepsInv(s, b, k, promise);
      case BeginOp(k, now, workNow) => if CanBegin(s, k) { BeginKeepsSchedInv(s, b, k, now, workNow); }
      case SettleOp(k, threw) => if CanSettle(s, k) { SettleKeepsInv(s, b, k, threw); }
      case ContinueOp(k, now, runNow) => if k in s.settled { ContinueKeepsInv(s, b, k, now, runNow); }
    }
  }

  lemma {:induction false} RunKeepsInv<K(!new), V(!new)>(s: Sched<K, V>, b: Budgets, ops: seq<Op<K, V>>)
    requires SchedInv(s, b)
    ensures SchedInv(Run(s, b, ops), b)
    decreases |ops|
  {
    if ops != [] {
      StepKeepsInv(s, b, ops[0]);
      RunKeepsInv(Step(s, b, ops[0]), b, ops[1..]);
    }
  }

  lemma StartHasInv<K(!new), V(!new)>(b: Budgets)
    requires SchedulerBudgets(b)
    ensures SchedInv(Start<K, V>(), b)
  {
  }

  /** For every key and interleaving: values reach processTask in schedule order,
      never an older one after a newer one; and a key has no worker only if its
      last scheduled value was the last one processed or an expiry or rejection
      was reported after it was scheduled. */
  lemma LatestValueIsNeverLostSilently<K(!new), V(!new)>(b: Budgets, ops: seq<Op<K, V>>, k: K)
    requires SchedulerBudgets(b)
    ensures var s := Run(Start<K, V>(), b, ops);
      && StrictlyIncreasing(ProcessingOf(s, k))
      && (k in s.lastScheduled && k !in s.workers ==> Answered(s, k, s.lastScheduled[k]))
      && (k in s.lastScheduled ==> AllBelow(ProcessingOf(s, k), s.lastScheduled[k] + 1))
  {
    StartHasInv<K, V>(b);
    RunKeepsInv(Start<K, V>(), b, ops);
    assert KeyOk(Run(Start<K, V>(), b, ops), k);
  }

  // ------------------------------------------------------------------ metrics

  ghost function Handed<K(!new), V>(s: Sched<K, V>): map<K, nat>
  {
    map k | k in s.processing :: |s.processing[k]|
  }

  /** Every value handed to processTask is counted as processed or still under way;
      failures are among the processed; the maximum age bounds the last. */
  ghost predicate MetricsTrue<K(!new), V(!new)>(s: Sched<K, V>)
  {
    && Sum(Handed(s)) == s.metrics.processed + |s.underway| && s.metrics.failed <= s.metrics.processed
    && 0 <= s.metrics.lastQueueAgeMs <= s.metrics.maxQueueAgeMs
  }

  ghost predicate SameWork<K, V>(s: Sched<K, V>, s': Sched<K, V>)
  {
    && s'.processing == s.processing && s'.underway == s.underway
    && s'.metrics.processed == s.metrics.processed && s'.metrics.failed == s.metrics.failed
    && s'.metrics.lastQueueAgeMs == s.metrics.lastQueueAgeMs && s'.metrics.maxQueueAgeMs == s.metrics.maxQueueAgeMs
  }

  lemma SubmitSameWork<K(!new), V(!new)>(s: Sched<K, V>, b: Budgets, k: K, now: int, runNow: int)
    requires k in s.workers
    ensures SameWork(s, Submit(s, b, k, now, runNow))
  {
  }

  lemma ScheduleSameWork<K(!new), V(!new)>(s: Sched<K, V>, b: Budgets, k: K, value: V, at: Readings)
    ensures SameWork(s, Step(s, b, ScheduleOp(k, value, at)))
  {
    if k !in s.workers {
      var item := Item(value, s.metrics.scheduled, at.now);
      SubmitSameWork(WithWorker(Numbered(s, k), k, item), b, k, at.submitNow, at.runNow);
    }
  }

  lemma ContinueSameWork<K(!new), V(!new)>(s: Sched<K, V>, b: Budgets, k: K, now: int, runNow: int)
    ensures SameWork(s, Step(s, b, ContinueOp(k, now, runNow)))
  {
    if k in s.settled && k in s.workers && s.settled[k].rejection.None? && s.workers[k].next.Some? {
      var w := s.workers[k];
      var resubmitted := s.workers[k := w.(submitted := w.next.value, next := None)];
      SubmitSameWork(s.(settled := s.settled - {k}, workers := resubmitted), b, k, now, runNow);
    }
  }

  lemma QuietStepSameWork<K(!new), V(!new)>(s: Sched<K, V>, b: Budgets, op: Op<K, V>)
    requires op.ScheduleOp? || op.TimerOp? || op.ContinueOp?
    ensures SameWork(s, Step(s, b, op))
  {
    match op {
      case ScheduleOp(k, value, at) => ScheduleSameWork(s, b, k, value, at);
      case TimerOp(k, promise) =>
      case ContinueOp(k, now, runNow) => ContinueSameWork(s, b, k, now, runNow);
    }
  }

  lemma EnteringIsCounted<K(!new), V(!new)>(s: Sched<K, V>, b: Budgets, k: K, workNow: int)
    requires MetricsTrue(s) && k in s.workers && k !in s.underway
    ensures MetricsTrue(WorkEntered(s, b, k, workNow))
  {
    if WorkAge(s.workers[k], workNow) >= b.maxQueueAgeMs {
      assert Handed(WorkEntered(s, b, k, workNow)) == Handed(s);
    } else {
      HandedGrows(s, b, k, workNow);
    }
  }

  lemma HandedGrows<K(!new), V(!new)>(s: Sched<K, V>, b: Budgets, k: K, workNow: int)
    requires k in s.workers && k !in s.underway && WorkAge(s.workers[k], workNow) < b.maxQueueAgeMs
    ensures Sum(Handed(WorkEntered(s, b, k, workNow))) == Sum(Handed(s)) + 1
    ensures |WorkEntered(s, b, k, workNow).underway| == |s.underway| + 1
  {
    var more := |ProcessingOf(s, k)| + 1;
    SumUpdate(Handed(s), k, more);
    assert Handed(WorkEntered(s, b, k, workNow)) == Handed(s)[k := more];
  }

  lemma SameWorkSameMetrics<K(!new), V(!new)>(s: Sched<K, V>, s': Sched<K, V>)
    requires MetricsTrue(s) && SameWork(s, s')
    ensures MetricsTrue(s')
  {
  }

  lemma ProcessedIsCounted<K(!new), V(!new)>(s: Sched<K, V>, s': Sched<K, V>, k: K, threw: bool)
    requires MetricsTrue(s) && SameWork(s, s')
    ensures MetricsTrue(Processed(s', k, threw))
  {
  }

  lemma StepKeepsMetrics<K(!new), V(!new)>(s: Sched<K, V>, b: Budgets, op: Op<K, V>)
    requires SchedInv(s, b) && MetricsTrue(s)
    ensures MetricsTrue(Step(s, b, op))
  {
    match op {
      case BeginOp(k, now, workNow) =>
        if CanBegin(s, k) && k in s.workers {
          assert KeyOk(s, k);
          EnteringIsCounted(s.(exec := Begin(s.exec, b, k, now)), b, k, workNow);
        }
      case SettleOp(k, threw) => if CanSettle(s, k) { ProcessedIsCounted(s, Freed(s, b, k), k, threw); }
      case _ =>
        QuietStepSameWork(s, b, op);
        SameWorkSameMetrics(s, Step(s, b, op));
    }
  }

  /** In every run each value handed to processTask is processed or under way. */
  lemma {:induction false} RunKeepsMetrics<K(!new), V(!new)>(s: Sched<K, V>, b: Budgets, ops: seq<Op<K, V>>)
    requires SchedInv(s, b) && MetricsTrue(s)
    ensures MetricsTrue(Run(s, b, ops))
    decreases |ops|
  {
    if ops != [] {
      StepKeepsInv(s, b, ops[0]);
      StepKeepsMetrics(s, b, ops[0]);
      RunKeepsMetrics(Step(s, b, ops[0]), b, ops[1..]);
    }
  }

  /** From the start, whatever the interleaving, the counters are the true totals. */
  lemma CountersAreTrue<K(!new), V(!new)>(b: Budgets, ops: seq<Op<K, V>>)
    requires SchedulerBudgets(b)
    ensures MetricsTrue(Run(Start<K, V>(), b, ops))
  {
    StartHasInv<K, V>(b);
    assert Handed(Start<K, V>()) == map[];
    RunKeepsMetrics(Start<K, V>(), b, ops);
  }
}
