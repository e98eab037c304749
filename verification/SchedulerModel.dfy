/** The latest-value scheduler over the bounded executor: one worker per key, one
    submitted value, one replaceable successor. */
module SchedulerModel {
  import opened Wrappers
  import opened ExecutorModel

  /** A scheduled value; `number` is its place in schedule order. */
  datatype Item<+V> = Item(value: V, number: nat, enqueuedAt: int)

  datatype Worker<+V> = Worker(started: bool, submitted: Item<V>, next: Option<Item<V>>, promise: Option<nat>)

  /** Why an expiry or rejection is reported: a value or task of that age, a queue
      timer, or an executor with so many permits taken and tasks queued. */
  datatype Cause = Aged(ageMs: int) | TimedOut | Full(active: int, waiting: int)

  datatype Notice<+K> = Notice(key: K, cause: Cause)

  /** A settled executor promise whose continuation has not run yet, with the cause of
      its rejection, if it was rejected. */
  datatype Settlement = Settlement(promise: nat, rejection: Option<Cause>)

  datatype Metrics = Metrics(
    scheduled: nat, processed: nat, coalesced: nat, failed: nat, rejected: nat, expired: nat,
    lastQueueAgeMs: int, maxQueueAgeMs: int)

  /** `settled` holds the continuations due and `underway` the keys whose
      processTask call is; `processing` lists, per key, the numbers handed to
      processTask; `lastScheduled` and `reported` hold, per key, the newest number
      scheduled and the newest one when an expiry or rejection was last reported;
      `notices` lists those reports, `handedAges` the ages at which values were handed
      to processTask, and `abandoned` counts successors dropped beside a report. */
  datatype Sched<K, V> = Sched(
    exec: Exec<K>, workers: map<K, Worker<V>>, settled: map<K, Settlement>, metrics: Metrics,
    underway: set<K>, processing: map<K, seq<nat>>, lastScheduled: map<K, nat>, reported: map<K, nat>,
    notices: seq<Notice<K>>, handedAges: seq<int>, abandoned: nat)

  const NO_METRICS := Metrics(0, 0, 0, 0, 0, 0, 0, 0)

  function Start<K, V>(): Sched<K, V>
  {
    Sched(Initial(), map[], map[], NO_METRICS, {}, map[], map[], map[], [], [], 0)
  }

  predicate SchedulerBudgets(b: Budgets)
  {
    ValidBudgets(b) && b.maxPendingPerKey == 1
  }

  // ---------------------------------------------------- specification functions

  function Report<K, V>(s: Sched<K, V>, k: K, cause: Cause): Sched<K, V>
  {
    s.(notices := s.notices + [Notice(k, cause)],
       reported := if k in s.lastScheduled then s.reported[k := s.lastScheduled[k]] else s.reported)
  }

  /** An expired submission: its worker goes, with a report. */
  function Lapsed<K, V>(s: Sched<K, V>, k: K, cause: Cause): Sched<K, V>
  {
    Report(s.(workers := s.workers - {k}, metrics := s.metrics.(expired := s.metrics.expired + 1)), k, cause)
  }

  /** A submission the executor refused. */
  function Refused<K, V>(s: Sched<K, V>, b: Budgets, k: K, runNow: int): Sched<K, V>
  {
    Report(s.(exec := Admit(s.exec, b, k, runNow), workers := s.workers - {k},
              metrics := s.metrics.(rejected := s.metrics.rejected + 1)), k, Full(s.exec.active, s.exec.waiting))
  }

  /** A submission the executor admitted. */
  function Accepted<K, V>(s: Sched<K, V>, b: Budgets, k: K, runNow: int): Sched<K, V>
    requires k in s.workers
  {
    s.(exec := Admit(s.exec, b, k, runNow),
       workers := s.workers[k := s.workers[k].(started := false, promise := Some(s.exec.promises))])
  }

  /** `submit` reads the clock at `now`, the executor's `run` at `runNow`. */
  function Submit<K, V>(s: Sched<K, V>, b: Budgets, k: K, now: int, runNow: int): Sched<K, V>
    requires k in s.workers
  {
    var age := now - s.workers[k].submitted.enqueuedAt;
    if age >= b.maxQueueAgeMs then Lapsed(s, k, Aged(age))
    else if CanRun(s.exec, b, k) then Accepted(s, b, k, runNow)
    else Refused(s, b, k, runNow)
  }

  /** The clock readings of one `schedule`: its own, that of `submit`, and that of the
      executor in `run` or `refreshPending`. */
  datatype Readings = Readings(now: int, submitNow: int, runNow: int)

  function Schedule<K, V>(s: Sched<K, V>, b: Budgets, k: K, value: V, at: Readings): Sched<K, V>
  {
    var item, counted := Item(value, s.metrics.scheduled, at.now), Numbered(s, k);
    if k !in s.workers then Submit(WithWorker(counted, k, item), b, k, at.submitNow, at.runNow)
    else Replaced(counted, k, item, at.runNow)
  }

  /** The next number goes to a value of key k. */
  function Numbered<K, V>(s: Sched<K, V>, k: K): Sched<K, V>
  {
    s.(metrics := s.metrics.(scheduled := s.metrics.scheduled + 1),
       lastScheduled := s.lastScheduled[k := s.metrics.scheduled])
  }

  function WithWorker<K, V>(s: Sched<K, V>, k: K, item: Item<V>): Sched<K, V>
  {
    s.(workers := s.workers[k := Worker(false, item, None, None)])
  }

  function Coalesced(m: Metrics): Metrics
  {
    m.(coalesced := m.coalesced + 1)
  }

  /** A key with a worker gets a successor once its submission is dispatched, else
      its waiting submission is replaced and its queue age starts again. */
  function Replaced<K, V>(s: Sched<K, V>, k: K, item: Item<V>, runNow: int): Sched<K, V>
    requires k in s.workers
  {
    var w := s.workers[k];
    if w.started || (w.promise.Some? && IsDispatched(s.exec, k, w.promise.value)) then
      s.(workers := s.workers[k := w.(next := Some(item))],
         metrics := if w.next.Some? then Coalesced(s.metrics) else s.metrics)
    else
      s.(workers := s.workers[k := w.(submitted := item)], metrics := Coalesced(s.metrics),
         exec := if w.promise.Some? then Refresh(s.exec, k, w.promise.value, runNow) else s.exec)
  }

  /** A queue timer fires; expiry of a queued task rejects its promise. */
  function TimerFires<K, V>(s: Sched<K, V>, k: K, promise: nat): Sched<K, V>
  {
    if promise in PromisesOf(StateOf(s.exec, k).pending) then
      s.(exec := Expire(s.exec, k, promise), settled := s.settled[k := Settlement(promise, Some(TimedOut))])
    else s
  }

  predicate CanBegin<K, V>(s: Sched<K, V>, k: K)
  {
    IsActive(s.exec, k) && s.exec.states[k].active.value.phase.Dispatched?
  }

  predicate CanSettle<K, V>(s: Sched<K, V>, k: K)
  {
    IsActive(s.exec, k) && !s.exec.states[k].active.value.phase.Dispatched?
  }

  function ProcessingOf<K, V>(s: Sched<K, V>, k: K): seq<nat>
  {
    if k in s.processing then s.processing[k] else []
  }

  /** How long the submitted value has waited when its work reads the clock. */
  function WorkAge<V>(w: Worker<V>, workNow: int): int
  {
    if workNow - w.submitted.enqueuedAt >= 0 then workNow - w.submitted.enqueuedAt else 0
  }

  /** A worker's work is entered: it reads the clock again, records the age and
      processes the submitted value or reports it as expired. */
  function WorkEntered<K, V>(s: Sched<K, V>, b: Budgets, k: K, workNow: int): Sched<K, V>
    requires k in s.workers
  {
    var w := s.workers[k];
    var age := WorkAge(w, workNow);
    var maximum := if age > s.metrics.maxQueueAgeMs then age else s.metrics.maxQueueAgeMs;
    var aged := s.metrics.(lastQueueAgeMs := age, maxQueueAgeMs := maximum);
    var begun := s.(workers := s.workers[k := w.(started := true)], metrics := aged);
    if age >= b.maxQueueAgeMs then Report(begun.(metrics := aged.(expired := aged.expired + 1)), k, Aged(age))
    else
      begun.(underway := s.underway + {k}, handedAges := s.handedAges + [age],
             processing := s.processing[k := ProcessingOf(s, k) + [w.submitted.number]])
  }

  /** The dispatched task's turn, at executor time `now`. */
  function TaskBegins<K, V>(s: Sched<K, V>, b: Budgets, k: K, now: int, workNow: int): Sched<K, V>
    requires CanBegin(s, k)
  {
    var exec := Begin(s.exec, b, k, now);
    if exec.states[k].active.value.phase.Overdue? || k !in s.workers then s.(exec := exec)
    else WorkEntered(s.(exec := exec), b, k, workNow)
  }

  /** A processTask call under way ends, and may have thrown. */
  function Processed<K, V>(s: Sched<K, V>, k: K, threw: bool): Sched<K, V>
  {
    if k !in s.underway then s
    else
      var m := s.metrics;
      s.(underway := s.underway - {k},
         metrics := m.(processed := m.processed + 1, failed := if threw then m.failed + 1 else m.failed))
  }

  /** The executor releases the task and its promise settles. */
  function Freed<K, V>(s: Sched<K, V>, b: Budgets, k: K): Sched<K, V>
    requires CanSettle(s, k)
  {
    var run := s.exec.states[k].active.value;
    var rejection := if run.phase.Overdue? then Some(Aged(run.phase.ageMs)) else None;
    s.(exec := Complete(s.exec, b, k), settled := s.settled[k := Settlement(run.task.promise, rejection)])
  }

  /** The task settles: it is freed, and its processTask call, if it had one, counted. */
  function TaskSettles<K, V>(s: Sched<K, V>, b: Budgets, k: K, threw: bool): Sched<K, V>
    requires CanSettle(s, k)
  {
    Processed(Freed(s, b, k), k, threw)
  }

  /** The continuation of a settled promise: resubmit the successor, or retire. */
  function Continue<K, V>(s: Sched<K, V>, b: Budgets, k: K, now: int, runNow: int): Sched<K, V>
    requires k in s.settled
  {
    var taken := s.(settled := s.settled - {k});
    if k !in s.workers then taken
    else
      var w := s.workers[k];
      if s.settled[k].rejection.Some? then
        Lapsed(taken.(abandoned := s.abandoned + if w.next.Some? then 1 else 0), k, s.settled[k].rejection.value)
      else if w.next.Some? then
        Submit(taken.(workers := s.workers[k := w.(submitted := w.next.value, next := None)]), b, k, now, runNow)
      else taken.(workers := s.workers - {k})
  }

  // ---------------------------------------------------------------- invariants

  ghost predicate StrictlyIncreasing(ns: seq<nat>)
  {
    forall i, j :: 0 <= i < j < |ns| ==> ns[i] < ns[j]
  }

  ghost predicate AllBelow(ns: seq<nat>, n: nat)
  {
    forall i :: 0 <= i < |ns| ==> ns[i] < n
  }

  predicate ReportedSince<K, V>(s: Sched<K, V>, k: K, n: nat)
  {
    k in s.reported && s.reported[k] >= n
  }

  /** Value n of key k was handed over last, or something was reported since it was scheduled. */
  ghost predicate Answered<K, V>(s: Sched<K, V>, k: K, n: nat)
  {
    (ProcessingOf(s, k) != [] && ProcessingOf(s, k)[|ProcessingOf(s, k)| - 1] == n) || ReportedSince(s, k, n)
  }

  /** No worker: nothing runs or is due, and the last scheduled value was answered. */
  ghost predicate Retired<K, V>(s: Sched<K, V>, k: K)
  {
    && StateOf(s.exec, k) == IDLE && k !in s.settled
    && (k in s.lastScheduled ==>
          AllBelow(ProcessingOf(s, k), s.lastScheduled[k] + 1) && Answered(s, k, s.lastScheduled[k]))
    && (k !in s.lastScheduled ==> ProcessingOf(s, k) == [])
  }

  /** The submitted value is still waiting for its turn. */
  predicate Awaiting(state: KeyState, w: Worker, p: nat)
  {
    !w.started && (
      || (state.active.None? && |state.pending| == 1 && state.pending[0].promise == p && w.next.None?)
      || (state.pending == [] && state.active.Some? && state.active.value.task.promise == p &&
          !state.active.value.phase.Working?))
  }

  /** The submitted value's work has been entered. */
  predicate Entered(state: KeyState, w: Worker, p: nat)
  {
    w.started && state.pending == [] && state.active.Some? && state.active.value.task.promise == p &&
    state.active.value.phase.Working?
  }

  /** The newest value of a worker that still has its turn to come. */
  function Newest<V>(w: Worker<V>): nat
  {
    if w.next.Some? then w.next.value.number else w.submitted.number
  }

  /** A worker whose submission waits, is entered, or was fulfilled. */
  ghost predicate OnCourse<K, V>(s: Sched<K, V>, k: K, w: Worker<V>)
  {
    && k in s.lastScheduled && s.lastScheduled[k] == Newest(w)
    && (w.next.Some? ==> w.submitted.number < w.next.value.number)
    && (w.started ==> AllBelow(ProcessingOf(s, k), w.submitted.number + 1) && Answered(s, k, w.submitted.number))
    && (!w.started ==> AllBelow(ProcessingOf(s, k), w.submitted.number))
  }

  /** A worker whose submission was rejected: its continuation will report, whatever
      was scheduled meanwhile. */
  ghost predicate Rejected<K, V>(s: Sched<K, V>, k: K)
  {
    k in s.settled && s.settled[k].rejection.Some? && StateOf(s.exec, k) == IDLE &&
    k in s.lastScheduled && AllBelow(ProcessingOf(s, k), s.lastScheduled[k] + 1)
  }

  /** Where the worker's submission is: executing, or fulfilled with its continuation due. */
  predicate Underway<K, V>(s: Sched<K, V>, k: K, w: Worker<V>, p: nat)
  {
    if k in s.settled then s.settled[k] == Settlement(p, None) && w.started && StateOf(s.exec, k) == IDLE
    else Awaiting(StateOf(s.exec, k), w, p) || Entered(StateOf(s.exec, k), w, p)
  }

  ghost predicate Employed<K, V>(s: Sched<K, V>, k: K)
    requires k in s.workers
  {
    var w := s.workers[k];
    w.promise.Some? &&
    ((Rejected(s, k) && !w.started) || (OnCourse(s, k, w) && Underway(s, k, w, w.promise.value)))
  }

  ghost predicate KeyOk<K, V>(s: Sched<K, V>, k: K)
  {
    && StrictlyIncreasing(ProcessingOf(s, k))
    && (k in s.lastScheduled ==> s.lastScheduled[k] < s.metrics.scheduled)
    && (k in s.underway ==> IsActive(s.exec, k) && s.exec.states[k].active.value.phase.Working?)
    && if k in s.workers then Employed(s, k) else Retired(s, k)
  }

  ghost predicate SchedInv<K(!new), V(!new)>(s: Sched<K, V>, b: Budgets)
  {
    SchedulerBudgets(b) && Inv(s.exec, b) && forall k :: KeyOk(s, k)
  }
}
