/** The scheduler as the backend runs it, over its own executor object. */
module LatestPendingScheduler {
  import opened Wrappers
  import opened ExecutorModel
  import opened BoundedKeyedExecutor
  import opened SchedulerModel
  import opened SchedulerInvariants

  class Scheduler<K(==,!new), V(!new)> {
    const executor: Executor<K>
    var workers: map<K, Worker<V>>
    var settled: map<K, Settlement>
    var metrics: Metrics
    var underway: set<K>
    ghost var processing: map<K, seq<nat>>
    ghost var lastScheduled: map<K, nat>
    ghost var reported: map<K, nat>
    ghost var notices: seq<Notice<K>>
    ghost var handedAges: seq<int>
    ghost var abandoned: nat

    ghost function View(): Sched<K, V>
      reads this, executor
    {
      Sched(executor.View(), workers, settled, metrics, underway, processing, lastScheduled, reported,
            notices, handedAges, abandoned)
    }

    ghost predicate Valid()
      reads this, executor
    {
      SchedInv(View(), executor.budgets)
    }

    constructor (budgets: Budgets)
      requires SchedulerBudgets(budgets)
      ensures Valid() && View() == Start() && executor.budgets == budgets && fresh(executor)
    {
      executor := new Executor(budgets);
      workers, settled, metrics, underway := map[], map[], NO_METRICS, {};
      processing, lastScheduled, reported, notices, handedAges, abandoned := map[], map[], map[], [], [], 0;
      new;
      StartHasInv<K, V>(budgets);
    }

    /** Schedules a value for `key`: submits it, or replaces the value waiting its turn. */
    method ScheduleValue(key: K, value: V, at: Readings)
      requires Valid()
      modifies this, executor
      ensures Valid() && View() == Schedule(old(View()), executor.budgets, key, value, at)
    {
      ScheduleKeepsInv(View(), executor.budgets, key, value, at);
      Place(key, value, at);
    }

    method Place(key: K, value: V, at: Readings)
      requires executor.Valid()
      modifies this, executor
      ensures View() == Schedule(old(View()), executor.budgets, key, value, at)
    {
      var item := Item(value, metrics.scheduled, at.now);
      TakeNumber(key);
      if key !in workers { Employ(key, item, at.submitNow, at.runNow); } else { Replace(key, item, at.runNow); }
    }

    method TakeNumber(key: K)
      modifies this`metrics, this`lastScheduled
      ensures View() == Numbered(old(View()), key)
    {
      lastScheduled := lastScheduled[key := metrics.scheduled];
      metrics := metrics.(scheduled := metrics.scheduled + 1);
    }

    /** A worker for a key that has none. */
    method Employ(key: K, item: Item<V>, now: int, runNow: int)
      requires executor.Valid() && key !in workers
      modifies this, executor
      ensures View() == Submit(WithWorker(old(View()), key, item), executor.budgets, key, now, runNow)
    {
      workers := workers[key := Worker(false, item, None, None)];
      SubmitWorker(key, now, runNow);
    }

    /** The key's successor if its submission is dispatched, else its submission. */
    method Replace(key: K, item: Item<V>, runNow: int)
      requires executor.Valid() && key in workers
      modifies this`workers, this`metrics, executor
      ensures View() == Replaced(old(View()), key, item, runNow)
    {
      var w := workers[key];
      var dispatched := false;
      if w.promise.Some? { dispatched := executor.IsDispatchedNow(key, w.promise.value); }
      if w.started || dispatched {
        if w.next.Some? { metrics := metrics.(coalesced := metrics.coalesced + 1); }
        workers := workers[key := w.(next := Some(item))];
      } else {
        metrics := metrics.(coalesced := metrics.coalesced + 1);
        workers := workers[key := w.(submitted := item)];
        if w.promise.Some? { executor.RefreshPending(key, w.promise.value, runNow); }
      }
    }

    method SubmitWorker(key: K, now: int, runNow: int)
      requires key in workers && executor.Valid()
      modifies this, executor
      ensures View() == Submit(old(View()), executor.budgets, key, now, runNow)
    {
      var w := workers[key];
      var age := now - w.submitted.enqueuedAt;
      if age >= executor.budgets.maxQueueAgeMs {
        Lapse(key, Aged(age));
        return;
      }
      var cause := Full(executor.active, executor.waiting);
      var admitted := executor.Run(key, runNow);
      match admitted {
        case Ok(promise) => workers := workers[key := w.(started := false, promise := Some(promise))];
        case Err(_) =>
          metrics := metrics.(rejected := metrics.rejected + 1);
          workers := workers - {key};
          ReportNow(key, cause);
      }
    }

    method Lapse(key: K, cause: Cause)
      modifies this`metrics, this`workers, this`reported, this`notices
      ensures View() == Lapsed(old(View()), key, cause)
    {
      metrics := metrics.(expired := metrics.expired + 1);
      workers := workers - {key};
      ReportNow(key, cause);
    }

    ghost method ReportNow(key: K, cause: Cause)
      modifies this`reported, this`notices
      ensures View() == Report(old(View()), key, cause)
    {
      notices := notices + [Notice(key, cause)];
      if key in lastScheduled { reported := reported[key := lastScheduled[key]]; }
    }

    method TimerFiresNow(key: K, promise: nat)
      requires Valid()
      modifies this, executor
      ensures Valid() && View() == TimerFires(old(View()), key, promise)
    {
      TimerKeepsInv(View(), executor.budgets, key, promise);
      var pending := if key in executor.states then executor.states[key].pending else [];
      if promise in PromisesOf(pending) {
        executor.ExpireNow(key, promise);
        settled := settled[key := Settlement(promise, Some(TimedOut))];
      }
    }

    /** The dispatched task's turn: the value handed to processTask, if any. */
    method TaskBeginsNow(key: K, now: int, workNow: int) returns (toProcess: Option<V>)
      requires Valid() && CanBegin(View(), key)
      modifies this, executor
      ensures Valid() && View() == TaskBegins(old(View()), executor.budgets, key, now, workNow)
      ensures toProcess.Some? <==> ProcessingOf(View(), key) != ProcessingOf(old(View()), key)
      ensures toProcess.Some? ==> key in old(workers) && toProcess.value == old(workers[key]).submitted.value
    {
      BeginKeepsSchedInv(View(), executor.budgets, key, now, workNow);
      toProcess := BeginTask(key, now, workNow);
    }

    method BeginTask(key: K, now: int, workNow: int) returns (toProcess: Option<V>)
      requires executor.Valid() && CanBegin(View(), key)
      modifies this, executor
      ensures View() == TaskBegins(old(View()), executor.budgets, key, now, workNow)
      ensures toProcess.Some? <==> ProcessingOf(View(), key) != ProcessingOf(old(View()), key)
      ensures toProcess.Some? ==> key in old(workers) && toProcess.value == old(workers[key]).submitted.value
    {
      var overdue := executor.BeginNow(key, now);
      if overdue || key !in workers { return None; }
      toProcess := EnterWork(key, workNow);
    }

    method EnterWork(key: K, workNow: int) returns (toProcess: Option<V>)
      requires key in workers
      modifies this`workers, this`metrics, this`underway, this`processing, this`reported
      modifies this`notices, this`handedAges
      ensures View() == WorkEntered(old(View()), executor.budgets, key, workNow)
      ensures toProcess ==
        if WorkAge(old(workers[key]), workNow) >= executor.budgets.maxQueueAgeMs then None
        else Some(old(workers[key]).submitted.value)
    {
      var w := workers[key];
      workers := workers[key := w.(started := true)];
      var age := WorkAge(w, workNow);
      metrics := metrics.(
        lastQueueAgeMs := age, maxQueueAgeMs := if age > metrics.maxQueueAgeMs then age else metrics.maxQueueAgeMs);
      if age >= executor.budgets.maxQueueAgeMs {
        metrics := metrics.(expired := metrics.expired + 1);
        ReportNow(key, Aged(age));
        return None;
      }
      underway := underway + {key};
      handedAges := handedAges + [age];
      processing := processing[key := ProcessingOf(View(), key) + [w.submitted.number]];
      return Some(w.submitted.value);
    }

    /** The task settles; `threw` says whether its processTask call did, if it had one. */
    method TaskSettlesNow(key: K, threw: bool)
      requires Valid() && CanSettle(View(), key)
      modifies this, executor
      ensures Valid() && View() == TaskSettles(old(View()), executor.budgets, key, threw)
    {
      SettleKeepsInv(View(), executor.budgets, key, threw);
      var run := executor.states[key].active.value;
      executor.CompleteNow(key);
      var rejection := if run.phase.Overdue? then Some(Aged(run.phase.ageMs)) else None;
      settled := settled[key := Settlement(run.task.promise, rejection)];
      CountProcessed(key, threw);
    }

    method CountProcessed(key: K, threw: bool)
      modifies this`metrics, this`underway
      ensures View() == Processed(old(View()), key, threw)
    {
      if key !in underway { return; }
      underway := underway - {key};
      if threw { metrics := metrics.(failed := metrics.failed + 1); }
      metrics := metrics.(processed := metrics.processed + 1);
    }

    /** The continuation of a settled promise. */
    method ContinueNow(key: K, now: int, runNow: int)
      requires Valid() && key in settled
      modifies this, executor
      ensures Valid() && View() == Continue(old(View()), executor.budgets, key, now, runNow)
    {
      ContinueKeepsInv(View(), executor.budgets, key, now, runNow);
      Resume(key, now, runNow);
    }

    method Resume(key: K, now: int, runNow: int)
      requires executor.Valid() && key in settled
      modifies this, executor
      ensures View() == Continue(old(View()), executor.budgets, key, now, runNow)
    {
      var rejection := settled[key].rejection;
      settled := settled - {key};
      if key !in workers { return; }
      var w := workers[key];
      if rejection.Some? {
        if w.next.Some? { abandoned := abandoned + 1; }
        Lapse(key, rejection.value);
      } else if w.next.Some? {
        workers := workers[key := w.(submitted := w.next.value, next := None)];
        SubmitWorker(key, now, runNow);
      } else {
        workers := workers - {key};
      }
    }
  }
}
