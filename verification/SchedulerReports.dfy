/** Who is submitted and why the others are reported: a fresh value is never dropped,
    every report has its cause, and every scheduled value is accounted for. */
module SchedulerReports {
  import opened Wrappers
  import opened MapSums
  import opened ExecutorModel
  import opened ExecutorEffects
  import opened SchedulerModel
  import opened SchedulerInvariants

  // ---------------------------------------------------------------- submissions

  /** The key's worker holds `item` under a new promise, queued or dispatched. */
  ghost predicate Placed<K, V>(s: Sched<K, V>, s': Sched<K, V>, k: K, item: Item<V>, runNow: int)
  {
    var task := Task(s.exec.promises, runNow);
    && k in s'.workers && s'.workers[k] == Worker(false, item, None, Some(s.exec.promises))
    && s'.exec.promises == s.exec.promises + 1 && s'.notices == s.notices
    && PumpedFrom(KeyState(None, [task]), StateOf(s'.exec, k))
  }

  /** Instead of a submission the key loses its worker, with one report. */
  ghost predicate Dropped<K, V>(s: Sched<K, V>, s': Sched<K, V>, k: K, cause: Cause)
  {
    && k !in s'.workers && s'.notices == s.notices + [Notice(k, cause)]
    && s'.exec.promises == s.exec.promises && StateOf(s'.exec, k) == IDLE
  }

  /** `item`, of that age, is submitted exactly when it is younger than the maximum age
      and there is a free permit or place in the queue; the report says which was missing. */
  ghost predicate SubmittedIfFresh<K, V>(
    s: Sched<K, V>, s': Sched<K, V>, b: Budgets, k: K, item: Item<V>, ageMs: int, runNow: int)
  {
    if ageMs >= b.maxQueueAgeMs then
      Dropped(s, s', k, Aged(ageMs)) && s'.metrics.expired == s.metrics.expired + 1
    else if s.exec.active < b.maxConcurrent || s.exec.waiting < b.maxPending then
      Placed(s, s', k, item, runNow) && s'.metrics.expired == s.metrics.expired
    else
      Dropped(s, s', k, Full(b.maxConcurrent, b.maxPending)) && s'.metrics.rejected == s.metrics.rejected + 1
  }

  lemma SubmitsExactlyTheFresh<K(!new), V(!new)>(s: Sched<K, V>, b: Budgets, k: K, now: int, runNow: int)
    requires SchedulerBudgets(b) && Inv(s.exec, b) && k in s.workers && s.workers[k].next.None?
    requires StateOf(s.exec, k) == IDLE
    ensures var item := s.workers[k].submitted;
      SubmittedIfFresh(s, Submit(s, b, k, now, runNow), b, k, item, now - item.enqueuedAt, runNow)
  {
    AdmitKey(s.exec, b, k, runNow);
    AdmitsExactly(s.exec, b, k, runNow);
  }

  /** A key without a worker: the scheduled value is submitted exactly if it is fresh
      when `submit` reads the clock and there is room. */
  lemma ScheduleSubmitsExactlyTheFresh<K(!new), V(!new)>(
    s: Sched<K, V>, b: Budgets, k: K, value: V, at: Readings)
    requires SchedInv(s, b) && k !in s.workers
    ensures SubmittedIfFresh(s, Schedule(s, b, k, value, at), b, k,
                             Item(value, s.metrics.scheduled, at.now), at.submitNow - at.now, at.runNow)
  {
    assert KeyOk(s, k);
    var item := Item(value, s.metrics.scheduled, at.now);
    SubmitsExactlyTheFresh(WithWorker(Numbered(s, k), k, item), b, k, at.submitNow, at.runNow);
  }

  /** A fulfilled submission's successor is submitted exactly if it is fresh and there is
      room; a worker without one goes without a report, a rejected one with a report. */
  lemma ContinueSubmitsExactlyTheFresh<K(!new), V(!new)>(s: Sched<K, V>, b: Budgets, k: K, now: int, runNow: int)
    requires SchedInv(s, b) && k in s.settled && k in s.workers
    ensures var s' := Continue(s, b, k, now, runNow); var w := s.workers[k];
      match s.settled[k].rejection
      case Some(cause) => Dropped(s, s', k, cause) && s'.metrics.expired == s.metrics.expired + 1
      case None =>
        if w.next.Some? then
          SubmittedIfFresh(s, s', b, k, w.next.value, now - w.next.value.enqueuedAt, runNow)
        else s' == s.(settled := s.settled - {k}, workers := s.workers - {k})
  {
    assert KeyOk(s, k);
    if s.settled[k].rejection.None? && s.workers[k].next.Some? {
      var w := s.workers[k];
      var resubmitted := s.workers[k := w.(submitted := w.next.value, next := None)];
      SubmitsExactlyTheFresh(s.(settled := s.settled - {k}, workers := resubmitted), b, k, now, runNow);
    }
  }

  lemma WorkerPlace<K(!new), V(!new)>(s: Sched<K, V>, b: Budgets, k: K)
    requires SchedInv(s, b) && k in s.workers
    ensures var w, state := s.workers[k], StateOf(s.exec, k);
      && w.promise.Some? && (state.active.Some? ==> state.active.value.task.promise == w.promise.value)
      && (w.started || state.active.Some? || k in s.settled
          || (w.next.None? && |state.pending| == 1 && state.pending[0].promise == w.promise.value))
      && (k in s.settled ==> s.settled[k].rejection.Some? || w.started)
      && (k in s.settled ==> state == IDLE)
  {
    assert KeyOk(s, k);
  }

  /** A key with a worker: nothing is reported and no permit or queue place is asked
      for. Beside a task that runs or has run the value becomes the successor; otherwise
      it takes the submission's place, whose queue age starts again. Unless the worker is
      already rejected, the value is the one that will be processed last. */
  lemma ScheduleReplacesTheNewest<K(!new), V(!new)>(s: Sched<K, V>, b: Budgets, k: K, value: V, at: Readings)
    requires SchedInv(s, b) && k in s.workers
    ensures var s' := Schedule(s, b, k, value, at); var w, w' := s.workers[k], s'.workers[k];
      var item := Item(value, s.metrics.scheduled, at.now);
      && w'.started == w.started && w'.promise == w.promise && s'.notices == s.notices
      && (if w.started || IsActive(s.exec, k) then
            && w'.submitted == w.submitted && w'.next == Some(item) && s'.exec == s.exec
            && s'.metrics.coalesced - s.metrics.coalesced == (if w.next.Some? then 1 else 0)
          else
            && w'.submitted == item && w'.next == w.next && s'.metrics.coalesced == s.metrics.coalesced + 1
            && s'.exec.waiting == s.exec.waiting && s'.exec.active == s.exec.active
            && (k !in s.settled ==>
                  w.promise.Some? && StateOf(s'.exec, k) == KeyState(None, [Task(w.promise.value, at.runNow)])))
      && (k !in s.settled || s.settled[k].rejection.None? ==> Newest(w') == item.number)
  {
    WorkerPlace(s, b, k);
  }

  /** A turn hands the submitted value to processTask exactly when the task is not overdue
      in the executor and the value has waited less than the maximum age; otherwise the
      value is reported, at once or when the rejected promise's continuation comes. The
      age of work that is entered is the last one measured, and counts for the longest. */
  lemma TurnHandsOverExactlyTheFresh<K(!new), V(!new)>(s: Sched<K, V>, b: Budgets, k: K, now: int, workNow: int)
    requires SchedInv(s, b) && CanBegin(s, k)
    ensures k in s.workers
    ensures var s' := TaskBegins(s, b, k, now, workNow); var item := s.workers[k].submitted;
      var waited := now - s.exec.states[k].active.value.task.enqueuedAt;
      var ageMs := if workNow <= item.enqueuedAt then 0 else workNow - item.enqueuedAt;
      if waited >= b.maxQueueAgeMs then
        && s'.processing == s.processing && s'.metrics == s.metrics && s'.notices == s.notices
        && s'.exec.states[k].active.value.phase == Overdue(waited)
      else
        && ProcessingOf(s', k) == ProcessingOf(s, k) + (if ageMs < b.maxQueueAgeMs then [item.number] else [])
        && (k in s'.underway <==> ageMs < b.maxQueueAgeMs)
        && s'.notices == s.notices + (if ageMs < b.maxQueueAgeMs then [] else [Notice(k, Aged(ageMs))])
        && s'.metrics.lastQueueAgeMs == ageMs && s'.metrics.maxQueueAgeMs >= s.metrics.maxQueueAgeMs
        && (s'.metrics.maxQueueAgeMs == s.metrics.maxQueueAgeMs || s'.metrics.maxQueueAgeMs == ageMs)
        && s'.metrics.maxQueueAgeMs >= ageMs
  {
    assert KeyOk(s, k);
  }

  /** A queue timer changes something exactly when its task is still queued: the key is then
      idle in the executor, its worker stays, and the continuation will report the timer. */
  lemma TimerRejectsExactlyTheQueued<K(!new), V(!new)>(s: Sched<K, V>, b: Budgets, k: K, promise: nat)
    requires SchedInv(s, b)
    ensures var s' := TimerFires(s, k, promise);
      if promise in QueueOf(s.exec, k) then
        && k in s'.workers && s'.workers == s.workers && s'.workers[k].promise == Some(promise)
        && StateOf(s'.exec, k) == IDLE && s'.exec.expired == s.exec.expired + 1 && s'.notices == s.notices
        && s'.settled == s.settled[k := Settlement(promise, Some(TimedOut))]
      else s' == s
  {
    assert KeyOk(s, k);
    var pending := StateOf(s.exec, k).pending;
    if promise in QueueOf(s.exec, k) {
      assert pending == [pending[0]];
      assert pending[..0] + pending[1..] == [];
    }
  }

  /** A settled task counts as processed exactly if processTask had been called for it, and
      as failed exactly if that call threw; its continuation finds it rejected exactly if
      it was overdue. */
  lemma SettlementCountsExactly<K(!new), V(!new)>(s: Sched<K, V>, b: Budgets, k: K, threw: bool)
    requires CanSettle(s, k)
    ensures var s' := TaskSettles(s, b, k, threw); var run := s.exec.states[k].active.value;
      && s'.metrics.processed - s.metrics.processed == (if k in s.underway then 1 else 0)
      && s'.metrics.failed - s.metrics.failed == (if k in s.underway && threw then 1 else 0)
      && k !in s'.underway && k in s'.settled && s'.settled[k].promise == run.task.promise
      && (s'.settled[k].rejection.Some? <==> run.phase.Overdue?)
  {
  }

  // --------------------------------------------------------- every report is due

  /** A value or task had reached the maximum age, its queue timer had fired, or all
      permits were taken and the queue was full. */
  predicate Due(cause: Cause, b: Budgets)
  {
    match cause
    case Aged(ageMs) => ageMs >= b.maxQueueAgeMs
    case TimedOut => true
    case Full(active, waiting) => active == b.maxConcurrent && waiting == b.maxPending
  }

  ghost predicate OverdueIsDue(state: KeyState, b: Budgets)
  {
    state.active.Some? && state.active.value.phase.Overdue? ==> state.active.value.phase.ageMs >= b.maxQueueAgeMs
  }

  /** What is about to be reported for the key is due. */
  ghost predicate DueOf<K, V>(s: Sched<K, V>, b: Budgets, k: K)
  {
    && OverdueIsDue(StateOf(s.exec, k), b)
    && (k in s.settled && s.settled[k].rejection.Some? ==> Due(s.settled[k].rejection.value, b))
  }

  /** Every report is due and counted once; every value handed to processTask was
      younger than the maximum age and is processed or under way. */
  ghost predicate Reported<K, V>(s: Sched<K, V>, b: Budgets)
  {
    && (forall i :: 0 <= i < |s.notices| ==> Due(s.notices[i].cause, b))
    && |s.notices| == s.metrics.expired + s.metrics.rejected
    && (forall i :: 0 <= i < |s.handedAges| ==> 0 <= s.handedAges[i] < b.maxQueueAgeMs)
    && |s.handedAges| == s.metrics.processed + |s.underway|
  }

  ghost predicate ReportsDue<K(!new), V(!new)>(s: Sched<K, V>, b: Budgets)
  {
    Reported(s, b) && forall k :: DueOf(s, b, k)
  }

  lemma UndisturbedStaysDue<K(!new), V(!new)>(s: Sched<K, V>, s': Sched<K, V>, b: Budgets, j: K)
    requires DueOf(s, b, j) && Undisturbed(s, s', j)
    ensures DueOf(s', b, j)
  {
  }

  lemma SubmitIsDue<K(!new), V(!new)>(s: Sched<K, V>, b: Budgets, k: K, now: int, runNow: int)
    requires SchedulerBudgets(b) && Inv(s.exec, b) && Submittable(s, k) && Reported(s, b)
    ensures var s' := Submit(s, b, k, now, runNow); Reported(s', b) && DueOf(s', b, k)
  {
    AdmitKey(s.exec, b, k, runNow);
  }

  lemma ScheduleIsDue<K(!new), V(!new)>(s: Sched<K, V>, b: Budgets, k: K, value: V, at: Readings)
    requires SchedInv(s, b) && ReportsDue(s, b)
    ensures var s' := Schedule(s, b, k, value, at); Reported(s', b) && DueOf(s', b, k)
  {
    assert KeyOk(s, k) && DueOf(s, b, k);
    var item := Item(value, s.metrics.scheduled, at.now);
    if k !in s.workers {
      SubmitIsDue(WithWorker(Numbered(s, k), k, item), b, k, at.submitNow, at.runNow);
    } else {
      ReplacedIsDue(Numbered(s, k), b, k, item, at.runNow);
    }
  }

  lemma ReplacedIsDue<K(!new), V(!new)>(s: Sched<K, V>, b: Budgets, k: K, item: Item<V>, runNow: int)
    requires k in s.workers && Reported(s, b) && DueOf(s, b, k)
    ensures var s' := Replaced(s, k, item, runNow); Reported(s', b) && DueOf(s', b, k)
  {
  }

  lemma TimerIsDue<K(!new), V(!new)>(s: Sched<K, V>, b: Budgets, k: K, promise: nat)
    requires SchedInv(s, b) && ReportsDue(s, b)
    ensures var s' := TimerFires(s, k, promise); Reported(s', b) && DueOf(s', b, k)
  {
    assert KeyOk(s, k) && DueOf(s, b, k);
  }

  lemma EnteringIsDue<K(!new), V(!new)>(s: Sched<K, V>, b: Budgets, k: K, workNow: int)
    requires SchedulerBudgets(b) && Reported(s, b) && DueOf(s, b, k) && k in s.workers && k !in s.underway
    ensures var s' := WorkEntered(s, b, k, workNow); Reported(s', b) && DueOf(s', b, k)
  {
    assert DueOf(WorkEntered(s, b, k, workNow), b, k);
    if WorkAge(s.workers[k], workNow) < b.maxQueueAgeMs {
      assert WorkEntered(s, b, k, workNow).notices == s.notices;
    } else {
      assert WorkEntered(s, b, k, workNow).handedAges == s.handedAges;
    }
  }

  lemma BeginIsDue<K(!new), V(!new)>(s: Sched<K, V>, b: Budgets, k: K, now: int, workNow: int)
    requires SchedInv(s, b) && ReportsDue(s, b) && CanBegin(s, k)
    ensures var s' := TaskBegins(s, b, k, now, workNow); Reported(s', b) && DueOf(s', b, k)
  {
    assert KeyOk(s, k) && DueOf(s, b, k);
    var begun := s.(exec := Begin(s.exec, b, k, now));
    assert DueOf(begun, b, k);
    if k in s.workers && !begun.exec.states[k].active.value.phase.Overdue? { EnteringIsDue(begun, b, k, workNow); }
  }

  lemma SettleIsDue<K(!new), V(!new)>(s: Sched<K, V>, b: Budgets, k: K, threw: bool)
    requires SchedInv(s, b) && ReportsDue(s, b) && CanSettle(s, k)
    ensures var s' := TaskSettles(s, b, k, threw); Reported(s', b) && DueOf(s', b, k)
  {
    assert KeyOk(s, k) && DueOf(s, b, k);
    CompleteEffect(s.exec, b, k, k);
  }

  lemma ContinueIsDue<K(!new), V(!new)>(s: Sched<K, V>, b: Budgets, k: K, now: int, runNow: int)
    requires SchedInv(s, b) && ReportsDue(s, b) && k in s.settled
    ensures var s' := Continue(s, b, k, now, runNow); Reported(s', b) && DueOf(s', b, k)
  {
    assert KeyOk(s, k) && DueOf(s, b, k);
    if k in s.workers && s.settled[k].rejection.None? && s.workers[k].next.Some? {
      var w := s.workers[k];
      var resubmitted := s.workers[k := w.(submitted := w.next.value, next := None)];
      SubmitIsDue(s.(settled := s.settled - {k}, workers := resubmitted), b, k, now, runNow);
    }
  }

  lemma StepIsDueAt<K(!new), V(!new)>(s: Sched<K, V>, b: Budgets, op: Op<K, V>)
    requires SchedInv(s, b) && ReportsDue(s, b)
    ensures Reported(Step(s, b, op), b) && DueOf(Step(s, b, op), b, op.key)
  {
    match op {
      case ScheduleOp(k, value, at) => ScheduleIsDue(s, b, k, value, at);
      case TimerOp(k, promise) => TimerIsDue(s, b, k, promise);
      case BeginOp(k, now, workNow) => if CanBegin(s, k) { BeginIsDue(s, b, k, now, workNow); }
      case SettleOp(k, threw) => if CanSettle(s, k) { SettleIsDue(s, b, k, threw); }
      case ContinueOp(k, now, runNow) => if k in s.settled { ContinueIsDue(s, b, k, now, runNow); }
    }
  }

  lemma StepLeavesOthers<K(!new), V(!new)>(s: Sched<K, V>, b: Budgets, op: Op<K, V>, j: K)
    requires SchedInv(s, b) && j != op.key
    ensures Undisturbed(s, Step(s, b, op), j)
  {
    match op {
      case ScheduleOp(k, value, at) => ScheduleOthers(s, b, k, value, at, j);
      case TimerOp(k, promise) => TimerOthers(s, k, promise, j);
      case BeginOp(k, now, workNow) => if CanBegin(s, k) { BeginOthers(s, b, k, now, workNow, j); }
      case SettleOp(k, threw) => if CanSettle(s, k) { SettleOthers(s, b, k, threw, j); }
      case ContinueOp(k, now, runNow) => if k in s.settled { ContinueOthers(s, b, k, now, runNow, j); }
    }
  }

  lemma StepKeepsReports<K(!new), V(!new)>(s: Sched<K, V>, b: Budgets, op: Op<K, V>)
    requires SchedInv(s, b) && ReportsDue(s, b)
    ensures ReportsDue(Step(s, b, op), b)
  {
    StepIsDueAt(s, b, op);
    forall j ensures DueOf(Step(s, b, op), b, j) {
      if j != op.key { StepLeavesOthers(s, b, op, j); UndisturbedStaysDue(s, Step(s, b, op), b, j); }
    }
  }

  lemma {:induction false} RunKeepsReports<K(!new), V(!new)>(s: Sched<K, V>, b: Budgets, ops: seq<Op<K, V>>)
    requires SchedInv(s, b) && ReportsDue(s, b)
    ensures ReportsDue(Run(s, b, ops), b)
    decreases |ops|
  {
    if ops != [] {
      StepKeepsInv(s, b, ops[0]);
      StepKeepsReports(s, b, ops[0]);
      RunKeepsReports(Step(s, b, ops[0]), b, ops[1..]);
    }
  }

  /** Whatever the interleaving, no report is made of a value that was fresh and had
      room, and no value that was not fresh is processed. */
  lemma EveryReportIsDue<K(!new), V(!new)>(b: Budgets, ops: seq<Op<K, V>>)
    requires SchedulerBudgets(b)
    ensures Reported(Run(Start<K, V>(), b, ops), b)
  {
    StartHasInv<K, V>(b);
    RunKeepsReports(Start<K, V>(), b, ops);
  }

  // ------------------------------------------------------------- conservation

  /** The values a worker still has to hand over. */
  ghost function Held<V>(w: Worker<V>): nat
  {
    (if w.started then 0 else 1) + (if w.next.Some? then 1 else 0)
  }

  ghost function HeldBy<K(!new), V>(workers: map<K, Worker<V>>): map<K, nat>
  {
    map k | k in workers :: Held(workers[k])
  }

  /** Every scheduled value was handed to processTask, replaced by a newer one, reported,
      dropped beside a report, or is still held by a worker: one of these, once. */
  ghost predicate Accounted<K(!new), V(!new)>(s: Sched<K, V>)
  {
    s.metrics.scheduled ==
      Sum(Handed(s)) + s.metrics.coalesced + |s.notices| + s.abandoned + Sum(HeldBy(s.workers))
  }

  lemma HeldAfter<K(!new), V(!new)>(workers: map<K, Worker<V>>, k: K, w: Worker<V>)
    ensures Sum(HeldBy(workers[k := w])) ==
            Sum(HeldBy(workers)) - (if k in workers then Held(workers[k]) else 0) + Held(w)
  {
    SumUpdate(HeldBy(workers), k, Held(w));
    assert HeldBy(workers[k := w]) == HeldBy(workers)[k := Held(w)];
  }

  lemma HeldWithout<K(!new), V(!new)>(workers: map<K, Worker<V>>, k: K)
    requires k in workers
    ensures Sum(HeldBy(workers - {k})) == Sum(HeldBy(workers)) - Held(workers[k])
  {
    SumRemove(HeldBy(workers), k);
    assert HeldBy(workers - {k}) == HeldBy(workers) - {k};
  }

  /** What left or is held, less what was scheduled. */
  ghost function Balance<K(!new), V(!new)>(s: Sched<K, V>): int
  {
    s.metrics.coalesced + |s.notices| + s.abandoned + Sum(HeldBy(s.workers)) - s.metrics.scheduled
  }

  lemma BalancedIsAccounted<K(!new), V(!new)>(s: Sched<K, V>, s': Sched<K, V>)
    requires Accounted(s) && s'.processing == s.processing && Balance(s') == Balance(s)
    ensures Accounted(s')
  {
    assert Handed(s') == Handed(s);
  }

  lemma SubmitBalances<K(!new), V(!new)>(s: Sched<K, V>, b: Budgets, k: K, now: int, runNow: int)
    requires k in s.workers && !s.workers[k].started && s.workers[k].next.None?
    ensures Balance(Submit(s, b, k, now, runNow)) == Balance(s)
    ensures Submit(s, b, k, now, runNow).processing == s.processing
  {
    var age := now - s.workers[k].submitted.enqueuedAt;
    HeldWithout(s.workers, k);
    if age >= b.maxQueueAgeMs { assert Lapsed(s, k, Aged(age)).workers == s.workers - {k}; }
    else if CanRun(s.exec, b, k) { HeldAfter(s.workers, k, Accepted(s, b, k, runNow).workers[k]); }
    else { assert Refused(s, b, k, runNow).workers == s.workers - {k}; }
  }

  lemma ReplacingBalances<K(!new), V(!new)>(s: Sched<K, V>, k: K, item: Item<V>, runNow: int)
    requires k in s.workers
    ensures Balance(Replaced(s, k, item, runNow)) == Balance(s) + 1
    ensures Replaced(s, k, item, runNow).processing == s.processing
  {
    HeldAfter(s.workers, k, Replaced(s, k, item, runNow).workers[k]);
  }

  lemma ScheduleAccounts<K(!new), V(!new)>(s: Sched<K, V>, b: Budgets, k: K, value: V, at: Readings)
    requires Accounted(s)
    ensures Accounted(Schedule(s, b, k, value, at))
  {
    var item, counted := Item(value, s.metrics.scheduled, at.now), Numbered(s, k);
    if k !in s.workers {
      var hired := WithWorker(counted, k, item);
      HeldAfter(s.workers, k, hired.workers[k]);
      SubmitBalances(hired, b, k, at.submitNow, at.runNow);
    } else {
      ReplacingBalances(counted, k, item, at.runNow);
    }
    BalancedIsAccounted(s, Schedule(s, b, k, value, at));
  }

  lemma BeginAccounts<K(!new), V(!new)>(s: Sched<K, V>, b: Budgets, k: K, workNow: int)
    requires Accounted(s) && k in s.workers && !s.workers[k].started && k !in s.underway
    ensures Accounted(WorkEntered(s, b, k, workNow))
  {
    var s' := WorkEntered(s, b, k, workNow);
    HeldAfter(s.workers, k, s.workers[k].(started := true));
    if WorkAge(s.workers[k], workNow) >= b.maxQueueAgeMs {
      assert Handed(s') == Handed(s);
    } else {
      HandedGrows(s, b, k, workNow);
    }
  }

  lemma ContinueAccounts<K(!new), V(!new)>(s: Sched<K, V>, b: Budgets, k: K, now: int, runNow: int)
    requires KeyOk(s, k) && k in s.settled && Accounted(s)
    ensures Accounted(Continue(s, b, k, now, runNow))
  {
    if k in s.workers && s.settled[k].rejection.None? && s.workers[k].next.Some? {
      SuccessorBalances(s, b, k, now, runNow);
    } else if k in s.workers {
      HeldWithout(s.workers, k);
    }
    BalancedIsAccounted(s, Continue(s, b, k, now, runNow));
  }

  lemma SuccessorBalances<K(!new), V(!new)>(s: Sched<K, V>, b: Budgets, k: K, now: int, runNow: int)
    requires k in s.settled && k in s.workers && s.settled[k].rejection.None?
    requires s.workers[k].next.Some? && s.workers[k].started
    ensures var s' := Continue(s, b, k, now, runNow); Balance(s') == Balance(s) && s'.processing == s.processing
  {
    var w := s.workers[k];
    var started := w.(submitted := w.next.value, next := None);
    var waiting := started.(started := false);
    var taken := s.(settled := s.settled - {k}, workers := s.workers[k := started]);
    var again := taken.(workers := s.workers[k := waiting]);
    HeldAfter(s.workers, k, waiting);
    SubmitBalances(again, b, k, now, runNow);
    SubmitIgnoresStarted(taken, b, k, now, runNow);
    assert again == taken.(workers := taken.workers[k := taken.workers[k].(started := false)]);
  }

  lemma SubmitIgnoresStarted<K(!new), V(!new)>(s: Sched<K, V>, b: Budgets, k: K, now: int, runNow: int)
    requires k in s.workers
    ensures Submit(s.(workers := s.workers[k := s.workers[k].(started := false)]), b, k, now, runNow) ==
            Submit(s, b, k, now, runNow)
  {
    var waiting := s.(workers := s.workers[k := s.workers[k].(started := false)]);
    var age := now - s.workers[k].submitted.enqueuedAt;
    assert waiting.workers - {k} == s.workers - {k};
    if age >= b.maxQueueAgeMs {
      assert Lapsed(waiting, k, Aged(age)) == Lapsed(s, k, Aged(age));
    } else if CanRun(s.exec, b, k) {
      assert Accepted(waiting, b, k, runNow).workers == Accepted(s, b, k, runNow).workers;
    } else {
      assert Refused(waiting, b, k, runNow) == Refused(s, b, k, runNow);
    }
  }

  lemma StepAccounts<K(!new), V(!new)>(s: Sched<K, V>, b: Budgets, op: Op<K, V>)
    requires SchedInv(s, b) && Accounted(s)
    ensures Accounted(Step(s, b, op))
  {
    assert KeyOk(s, op.key);
    match op {
      case ScheduleOp(k, value, at) => ScheduleAccounts(s, b, k, value, at);
      case BeginOp(k, now, workNow) => if CanBegin(s, k) { TurnAccounts(s, b, k, now, workNow); }
      case ContinueOp(k, now, runNow) => if k in s.settled { ContinueAccounts(s, b, k, now, runNow); }
      case TimerOp(k, promise) => TimerAccounts(s, k, promise);
      case SettleOp(k, threw) => if CanSettle(s, k) { SettleAccounts(s, b, k, threw); }
    }
  }

  lemma TimerAccounts<K(!new), V(!new)>(s: Sched<K, V>, k: K, promise: nat)
    requires Accounted(s)
    ensures Accounted(TimerFires(s, k, promise))
  {
    BalancedIsAccounted(s, TimerFires(s, k, promise));
  }

  lemma SettleAccounts<K(!new), V(!new)>(s: Sched<K, V>, b: Budgets, k: K, threw: bool)
    requires CanSettle(s, k) && Accounted(s)
    ensures Accounted(TaskSettles(s, b, k, threw))
  {
    BalancedIsAccounted(s, TaskSettles(s, b, k, threw));
  }

  lemma TurnAccounts<K(!new), V(!new)>(s: Sched<K, V>, b: Budgets, k: K, now: int, workNow: int)
    requires CanBegin(s, k) && KeyOk(s, k) && Accounted(s)
    ensures Accounted(TaskBegins(s, b, k, now, workNow))
  {
    var begun := s.(exec := Begin(s.exec, b, k, now));
    BalancedIsAccounted(s, begun);
    if k in s.workers { BeginAccounts(begun, b, k, workNow); }
  }

  lemma {:induction false} RunAccounts<K(!new), V(!new)>(s: Sched<K, V>, b: Budgets, ops: seq<Op<K, V>>)
    requires SchedInv(s, b) && Accounted(s)
    ensures Accounted(Run(s, b, ops))
    decreases |ops|
  {
    if ops != [] {
      StepKeepsInv(s, b, ops[0]);
      StepAccounts(s, b, ops[0]);
      RunAccounts(Step(s, b, ops[0]), b, ops[1..]);
    }
  }

  /** From the start, whatever the interleaving, no scheduled value is lost or counted twice. */
  lemma EveryValueIsAccounted<K(!new), V(!new)>(b: Budgets, ops: seq<Op<K, V>>)
    requires SchedulerBudgets(b)
    ensures Accounted(Run(Start<K, V>(), b, ops))
  {
    var start := Start<K, V>();
    StartHasInv<K, V>(b);
    assert Handed(start) == map[] && HeldBy(start.workers) == map[];
    RunAccounts(start, b, ops);
  }
}
