/** The executor as the backend runs it, with its fields updated in place. */
module BoundedKeyedExecutor {
  import opened Wrappers
  import opened MapSums
  import opened ExecutorModel
  import opened ExecutorInvariants

  datatype CapacityError = WorkCapacityError

  class Executor<K(==,!new)> {
    const budgets: Budgets
    var states: map<K, KeyState>
    var ready: seq<K>
    var readySet: set<K>
    var active: int
    var waiting: int
    var rejected: nat
    var expired: nat
    var peakPending: int
    var promises: nat
    ghost var trace: Trace<K>

    ghost function View(): Exec<K>
      reads this
    {
      Exec(states, ready, readySet, active, waiting, rejected, expired, peakPending, promises, trace)
    }

    ghost predicate Valid()
      reads this
    {
      Inv(View(), budgets)
    }

    constructor (budgets: Budgets)
      requires ValidBudgets(budgets)
      ensures this.budgets == budgets && Valid() && View() == Initial()
    {
      this.budgets := budgets;
      states, ready, readySet := map[], [], {};
      active, waiting, rejected, expired, peakPending, promises := 0, 0, 0, 0, 0, 0;
      trace := Empty;
      new;
      InitialInv<K>(budgets);
    }

    /** Admits work for `key` and pumps, or refuses it; a promise names the task. */
    method Run(key: K, now: int) returns (r: Result<nat, CapacityError>)
      requires Valid()
      modifies this
      ensures Valid() && View() == Admit(old(View()), budgets, key, now)
      ensures r == if CanRun(old(View()), budgets, key) then Ok(old(promises)) else Err(WorkCapacityError)
    {
      AdmitKeepsInv(View(), budgets, key, now);
      var allowed := CanRunNow(key);
      if !allowed {
        rejected := rejected + 1;
        return Err(WorkCapacityError);
      }
      var promise := EnqueueNow(key, now);
      PumpNow();
      peakPending := if peakPending >= waiting then peakPending else waiting;
      return Ok(promise);
    }

    method EnqueueNow(key: K, now: int) returns (promise: nat)
      modifies this
      ensures View() == Enqueue(old(View()), key, now) && promise == old(promises)
    {
      var state := if key in states then states[key] else KeyState(None, []);
      promise := promises;
      promises := promises + 1;
      states := states[key := state.(pending := state.pending + [Task(promise, now)])];
      waiting := waiting + 1;
      trace := Then(trace, Admitted(key, promise));
      if state.active.None? { MarkReadyNow(key); }
    }

    method CanRunNow(key: K) returns (allowed: bool)
      ensures allowed == CanRun(View(), budgets, key)
    {
      var state := if key in states then Some(states[key]) else None;
      var idle := state.None? || (state.value.active.None? && |state.value.pending| == 0);
      var startsImmediately := idle && active < budgets.maxConcurrent;
      var queued := if state.Some? then |state.value.pending| else 0;
      return (startsImmediately || waiting < budgets.maxPending) && queued < budgets.maxPendingPerKey;
    }

    method MarkReadyNow(key: K)
      modifies this`ready, this`readySet, this`trace
      ensures View() == MarkReady(old(View()), key)
    {
      if key !in readySet {
        readySet := readySet + {key};
        ready := ready + [key];
        trace := Then(trace, MadeReady(key));
      }
    }

    method PumpNow()
      modifies this
      ensures View() == Pump(old(View()), budgets)
    {
      while active < budgets.maxConcurrent && |ready| > 0
        invariant Pump(View(), budgets) == Pump(old(View()), budgets)
        decreases |ready|
      {
        ghost var before := View();
        var key := ready[0];
        ready := ready[1..];
        readySet := readySet - {key};
        if key !in states || states[key].active.Some? {
          assert View() == DispatchHead(before);
          continue;
        }
        var state := states[key];
        if |state.pending| == 0 {
          states := states - {key};
          assert View() == DispatchHead(before);
          continue;
        }
        var task := state.pending[0];
        waiting := waiting - 1;
        active := active + 1;
        states := states[key := KeyState(Some(Running(task, Dispatched)), state.pending[1..])];
        trace := Then(trace, Started(key, task.promise));
        assert View() == DispatchHead(before);
      }
    }

    /** A task's queue timer: dispatched work keeps its permit. */
    method ExpireNow(key: K, promise: nat)
      requires Valid()
      modifies this
      ensures Valid() && View() == Expire(old(View()), key, promise)
    {
      ExpireKeepsInv(View(), budgets, key, promise);
      DropQueued(key, promise);
    }

    method DropQueued(key: K, promise: nat)
      modifies this
      ensures View() == Expire(old(View()), key, promise)
    {
      var state := if key in states then states[key] else KeyState(None, []);
      var index := IndexOf(PromisesOf(state.pending), promise);
      if index < 0 { return; }
      TakeFromQueue(key, index);
      if states[key].active.None? && |states[key].pending| == 0 { Forget(key); }
    }

    method TakeFromQueue(key: K, index: nat)
      requires index < |StateOf(View(), key).pending|
      modifies this
      ensures View() == Dropped(old(View()), key, index) && key in states
    {
      var state := states[key];
      states := states[key := state.(pending := state.pending[..index] + state.pending[index + 1..])];
      waiting := waiting - 1;
      expired := expired + 1;
      trace := Then(trace, ExpiredInQueue(key, state.pending[index].promise));
    }

    method Forget(key: K)
      modifies this
      ensures View() == Forgotten(old(View()), key)
    {
      states := states - {key};
      readySet := readySet - {key};
      var readyIndex := IndexOf(ready, key);
      if readyIndex >= 0 { ready := ready[..readyIndex] + ready[readyIndex + 1..]; }
    }

    /** The dispatched task's turn: it enters its work unless it is overdue. */
    method BeginNow(key: K, now: int) returns (overdue: bool)
      requires Valid() && IsActive(View(), key)
      modifies this
      ensures Valid() && View() == Begin(old(View()), budgets, key, now)
      ensures overdue <==> now - old(states)[key].active.value.task.enqueuedAt >= budgets.maxQueueAgeMs
    {
      BeginKeepsInv(View(), budgets, key, now);
      var run := states[key].active.value;
      var age := now - run.task.enqueuedAt;
      overdue := age >= budgets.maxQueueAgeMs;
      if overdue { expired := expired + 1; }
      var phase := if overdue then Overdue(age) else Working;
      states := states[key := states[key].(active := Some(run.(phase := phase)))];
    }

    /** A task's real settlement: give the permit back and pump. */
    method CompleteNow(key: K)
      requires Valid() && IsActive(View(), key)
      modifies this
      ensures Valid() && View() == Complete(old(View()), budgets, key)
    {
      CompleteKeepsInv(View(), budgets, key);
      var state := states[key];
      trace := Then(trace, Finished(key, state.active.value.task.promise));
      active := active - 1;
      if |state.pending| > 0 {
        states := states[key := state.(active := None)];
        MarkReadyNow(key);
      } else {
        states := states - {key};
      }
      assert View() == Release(old(View()), key);
      PumpNow();
    }

    method RefreshPending(key: K, promise: nat, now: int)
      requires Valid()
      modifies this
      ensures Valid() && View() == Refresh(old(View()), key, promise, now)
    {
      RefreshKeepsInv(View(), budgets, key, promise, now);
      if key !in states { return; }
      var state := states[key];
      var index := IndexOf(PromisesOf(state.pending), promise);
      if index < 0 { return; }
      states := states[key := state.(pending := state.pending[index := Task(promise, now)])];
    }

    method IsDispatchedNow(key: K, promise: nat) returns (dispatched: bool)
      ensures dispatched == IsDispatched(View(), key, promise)
    {
      return key in states && states[key].active.Some? && states[key].active.value.task.promise == promise;
    }
  }
}
